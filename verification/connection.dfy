/**
 * The decision path of `http_handle_client` with the socket calls abstracted:
 * the result of the receive, then the parse, then the route, then either the
 * response to send or nothing. The socket is closed on every path.
 */
module Connection {
  import opened Options
  import opened FixedPoint
  import opened CStrings
  import opened RequestParser
  import opened Router

  /** Capacity of the request buffer; a receive asks for one byte less, leaving room for the NUL. */
  const RequestBufferSize: nat := 512

  /** What the client observes before the close: nothing, or one response of a given kind. */
  datatype Outcome = Dropped | Replied(endpoint: Endpoint, response: seq<char>)

  /** The request buffer after a receive of `n > 0` bytes and the NUL written at index `n`. */
  function Received(received: seq<char>): seq<char> {
    received + [NUL]
  }

  /** The received bytes keep their places in the terminated buffer. */
  lemma ReceivedSlice(received: seq<char>, i: nat, j: nat)
    requires i <= j <= |received|
    ensures Received(received)[i..j] == received[i..j]
  {
  }

  /** The parse of the terminated buffer is the parse of the received bytes: the NUL at `n` is never read. */
  lemma ReceivedParse(received: seq<char>, sign: CharSign)
    ensures Parse(Received(received), |received|, sign) == Parse(received, |received|, sign)
  {
    ReceivedSlice(received, 0, |received|);
    ParseReadsOnlyReceived(Received(received), received, |received|, sign);
  }

  /** The request buffer once `http_parse` has succeeded: both delimiters overwritten with NUL. */
  function Buffer(received: seq<char>, l: RequestLine): seq<char>
    requires l.methodEnd < l.pathStart <= l.pathEnd < |received|
  {
    Terminate(Received(received), l)
  }

  /** After the path's delimiter the buffer holds the received bytes and then the NUL at `n`. */
  lemma BufferAfterPath(received: seq<char>, l: RequestLine, i: nat, j: nat)
    requires l.methodEnd < l.pathStart <= l.pathEnd < i <= j <= |received|
    ensures Buffer(received, l)[i..j] == received[i..j]
    ensures Buffer(received, l)[|received|] == NUL
  {
    var t := Buffer(received, l);
    assert forall k :: i <= k < j ==> t[k] == received[k];
  }

  /** After the path's delimiter, each byte of the buffer, the NUL at `n` included, is as received. */
  lemma BufferAt(received: seq<char>, l: RequestLine, k: nat)
    requires l.methodEnd < l.pathStart <= l.pathEnd < k <= |received|
    ensures Buffer(received, l)[k] == Received(received)[k]
  {
  }

  /** The method and the path read as C strings are the two tokens, and the byte after the path start is terminated too. */
  lemma BufferTerminated(received: seq<char>, sign: CharSign, l: RequestLine)
    requires IsRequestLine(received, |received|, sign, l)
    ensures var t := Buffer(received, l);
      Terminated(t, 0) && Terminated(t, l.pathStart) && Terminated(t, l.pathStart + 1)
    ensures CStr(Buffer(received, l), 0) == MethodToken(received, l)
    ensures CStr(Buffer(received, l), l.pathStart) == PathToken(received, l)
  {
    var buf := Received(received);
    ReceivedParse(received, sign);
    ParseComplete(received, |received|, sign, l);
    TokensAreCStrings(buf, |received|, sign, l);
    ReceivedSlice(received, 0, l.methodEnd);
    ReceivedSlice(received, l.pathStart, l.pathEnd);
    BufferAfterPath(received, l, |received|, |received|);
    TerminatedAt(Buffer(received, l), l.pathStart + 1, |received|);
  }

  /**
   * `http_handle_client` after its socket options: `n` is what `recv`
   * returned and `received` the bytes it wrote. A failed or empty receive, or
   * a malformed request line, closes the connection with nothing sent;
   * otherwise the routed response is sent, and with the real page it always
   * fits the response buffer.
   */
  function HandleClient(n: int, received: seq<char>, sign: CharSign,
                        temp: Hundredths, water: Hundredths, page: seq<char>): (o: Outcome)
    requires n < RequestBufferSize
    requires n > 0 ==> |received| == n
    requires Encodable(temp) && Encodable(water)
    ensures o.Dropped? <==> n <= 0 || Parse(received, n, sign).None?
    ensures o.Replied? ==> o.response == Respond(o.endpoint, temp, water, page)
    ensures o.Replied? && |page| == HtmlLen ==> |o.response| <= ResponseBufferSize
  {
    if n <= 0 then
      Dropped
    else
      ReceivedParse(received, sign);
      match Parse(Received(received), n, sign)
      case None => Dropped
      case Some(l) =>
        BufferTerminated(received, sign, l);
        var t := Buffer(received, l);
        Replied(Select(t, 0, l.pathStart), Route(t, 0, l.pathStart, temp, water, page))
  }

  /** The method and path tokens of a parsed request line. */
  function MethodToken(received: seq<char>, l: RequestLine): seq<char>
    requires l.methodEnd <= |received|
  {
    received[..l.methodEnd]
  }

  function PathToken(received: seq<char>, l: RequestLine): seq<char>
    requires l.pathStart <= l.pathEnd <= |received|
  {
    received[l.pathStart..l.pathEnd]
  }

  /** The received bytes from `i` on read `data` and then a NUL: a received one, or the one written at `n`. */
  predicate DataFollows(received: seq<char>, i: nat) {
    && i + 4 <= |received|
    && received[i..i + 4] == "data"
    && Received(received)[i + 4] == NUL
  }

  /**
   * When the `/data` test passes, in terms of the request: a path of five
   * bytes whose last four are `data` (its first byte is never checked), or an
   * empty path whose following received bytes read `data` up to a NUL or the
   * end of the received bytes.
   */
  predicate DataPath(received: seq<char>, l: RequestLine)
    requires l.pathStart <= l.pathEnd <= |received|
  {
    var path := PathToken(received, l);
    (|path| == 5 && path[1..] == "data") || (path == [] && DataFollows(received, l.pathStart + 1))
  }

  /**
   * The response kind for a request line, stated on its tokens: the page
   * exactly for method `GET` and path `/`, the JSON reading for method `GET`
   * and a path that passes the `/data` test, the 404 response otherwise.
   */
  function TokenDecision(received: seq<char>, l: RequestLine): Endpoint
    requires l.methodEnd < l.pathStart <= l.pathEnd < |received|
  {
    if MethodToken(received, l) == "GET" && PathToken(received, l) == "/" then Dashboard
    else if MethodToken(received, l) == "GET" && DataPath(received, l) then SensorData
    else NotFound
  }

  /** With a non-empty path, the `/data` test reads the path without its first byte. */
  lemma NonEmptyPathTail(received: seq<char>, sign: CharSign, l: RequestLine)
    requires IsRequestLine(received, |received|, sign, l) && l.pathEnd > l.pathStart
    ensures Terminated(Buffer(received, l), l.pathStart + 1)
    ensures CStr(Buffer(received, l), l.pathStart + 1) == PathToken(received, l)[1..]
  {
    BufferTerminated(received, sign, l);
    CStrTail(Buffer(received, l), l.pathStart);
  }

  /** With an empty path, the `/data` test reads the received bytes after the path's NUL. */
  lemma EmptyPathReadsAhead(received: seq<char>, sign: CharSign, l: RequestLine)
    requires IsRequestLine(received, |received|, sign, l) && l.pathEnd == l.pathStart
    ensures Terminated(Buffer(received, l), l.pathStart + 1)
    ensures CStr(Buffer(received, l), l.pathStart + 1) == "data" <==> DataFollows(received, l.pathStart + 1)
  {
    BufferTerminated(received, sign, l);
    if DataFollows(received, l.pathStart + 1) {
      DataFollowsIsRead(received, l);
    }
    if CStr(Buffer(received, l), l.pathStart + 1) == "data" {
      ReadIsDataFollows(received, l);
    }
  }

  lemma DataFollowsIsRead(received: seq<char>, l: RequestLine)
    requires l.methodEnd < l.pathStart <= l.pathEnd < |received|
    requires DataFollows(received, l.pathEnd + 1)
    ensures Terminated(Buffer(received, l), l.pathEnd + 1)
    ensures CStr(Buffer(received, l), l.pathEnd + 1) == "data"
  {
    var i := l.pathEnd + 1;
    BufferAfterPath(received, l, i, i + 4);
    BufferAt(received, l, i + 4);
    CStrIsLiteral(Buffer(received, l), i, "data");
  }

  lemma ReadIsDataFollows(received: seq<char>, l: RequestLine)
    requires l.methodEnd < l.pathStart <= l.pathEnd < |received|
    requires Terminated(Buffer(received, l), l.pathEnd + 1)
    requires CStr(Buffer(received, l), l.pathEnd + 1) == "data"
    ensures DataFollows(received, l.pathEnd + 1)
  {
    var t := Buffer(received, l);
    var i := l.pathEnd + 1;
    assert i + 4 < |t| && t[i..i + 4] == "data" && t[i + 4] == NUL;
    BufferAfterPath(received, l, i, i + 4);
    BufferAt(received, l, i + 4);
  }

  /** The `/data` test on the buffer is the `/data` test on the request. */
  lemma PathTailIsData(received: seq<char>, sign: CharSign, l: RequestLine)
    requires IsRequestLine(received, |received|, sign, l)
    ensures Terminated(Buffer(received, l), l.pathStart + 1)
    ensures CStr(Buffer(received, l), l.pathStart + 1) == "data" <==> DataPath(received, l)
  {
    if l.pathEnd > l.pathStart {
      NonEmptyPathTail(received, sign, l);
    } else {
      EmptyPathReadsAhead(received, sign, l);
    }
  }

  /** The router's decision on the request buffer is the decision stated on the tokens. */
  lemma SelectOnTokens(received: seq<char>, sign: CharSign, l: RequestLine)
    requires IsRequestLine(received, |received|, sign, l)
    ensures var t := Buffer(received, l);
      && Terminated(t, 0) && Terminated(t, l.pathStart) && Terminated(t, l.pathStart + 1)
      && Select(t, 0, l.pathStart) == TokenDecision(received, l)
  {
    BufferTerminated(received, sign, l);
    PathTailIsData(received, sign, l);
    SelectDecision(Buffer(received, l), 0, l.pathStart, MethodToken(received, l), PathToken(received, l), DataPath(received, l));
  }

  /** A parsed request line is always answered, with the response the tokens call for. */
  lemma HandleClientDispatch(n: int, received: seq<char>, sign: CharSign, l: RequestLine,
                             temp: Hundredths, water: Hundredths, page: seq<char>)
    requires 0 < n < RequestBufferSize && |received| == n
    requires Encodable(temp) && Encodable(water)
    requires Parse(received, n, sign) == Some(l)
    ensures HandleClient(n, received, sign, temp, water, page)
         == Replied(TokenDecision(received, l), Respond(TokenDecision(received, l), temp, water, page))
  {
    ReceivedParse(received, sign);
    SelectOnTokens(received, sign, l);
  }

  lemma HandleClientDropsMalformed(temp: Hundredths, water: Hundredths, page: seq<char>)
    requires Encodable(temp) && Encodable(water)
    ensures HandleClient(0, "", UnsignedChar, temp, water, page) == Dropped
    ensures HandleClient(-1, "", UnsignedChar, temp, water, page) == Dropped
    ensures HandleClient(5, "GET /", UnsignedChar, temp, water, page) == Dropped
  {
    ParseRejectsExamples();
  }

  lemma HandleClientServesPage(temp: Hundredths, water: Hundredths, page: seq<char>)
    requires Encodable(temp) && Encodable(water)
    ensures HandleClient(16, "GET / HTTP/1.1\r\n", UnsignedChar, temp, water, page) == Replied(Dashboard, PageResponse(page))
  {
    var r := "GET / HTTP/1.1\r\n";
    var l := RequestLine(3, 4, 5);
    ParseRootExample();
    ExampleTokens();
    HandleClientDispatch(16, r, UnsignedChar, l, temp, water, page);
  }

  /**
   * The `/data` quirk: method `GET` with any five-byte path whose last four
   * bytes are `data` is answered with the JSON reading.
   */
  lemma FiveBytePathServesData(n: int, received: seq<char>, sign: CharSign, l: RequestLine,
                               temp: Hundredths, water: Hundredths, page: seq<char>)
    requires 0 < n < RequestBufferSize && |received| == n
    requires Encodable(temp) && Encodable(water)
    requires Parse(received, n, sign) == Some(l)
    requires MethodToken(received, l) == "GET"
    requires |PathToken(received, l)| == 5 && PathToken(received, l)[1..] == "data"
    ensures HandleClient(n, received, sign, temp, water, page) == Replied(SensorData, DataResponse(temp, water))
  {
    HandleClientDispatch(n, received, sign, l, temp, water, page);
  }

  lemma HandleClientServesData(temp: Hundredths, water: Hundredths, page: seq<char>)
    requires Encodable(temp) && Encodable(water)
    ensures HandleClient(20, "GET /data HTTP/1.1\r\n", UnsignedChar, temp, water, page)
         == Replied(SensorData, DataResponse(temp, water))
  {
    var r := "GET /data HTTP/1.1\r\n";
    var l := RequestLine(3, 4, 9);
    ParseDataExample();
    ExampleTokens();
    FiveBytePathServesData(20, r, UnsignedChar, l, temp, water, page);
  }

  /** The first path byte is never checked: `xdata` is served like `/data`. */
  lemma HandleClientServesDataForAnyFirstByte(temp: Hundredths, water: Hundredths, page: seq<char>)
    requires Encodable(temp) && Encodable(water)
    ensures HandleClient(20, "GET xdata HTTP/1.1\r\n", UnsignedChar, temp, water, page)
         == Replied(SensorData, DataResponse(temp, water))
  {
    var r := "GET xdata HTTP/1.1\r\n";
    var l := RequestLine(3, 4, 9);
    ParseOtherDataExample();
    ExampleTokens();
    FiveBytePathServesData(20, r, UnsignedChar, l, temp, water, page);
  }

  /** Any other method gets the fixed 404 response. */
  lemma HandleClientNotFound(temp: Hundredths, water: Hundredths, page: seq<char>)
    requires Encodable(temp) && Encodable(water)
    ensures HandleClient(19, "POST / HTTP/1.1\r\n\r\n", UnsignedChar, temp, water, page) == Replied(NotFound, Http404)
  {
    var r := "POST / HTTP/1.1\r\n\r\n";
    var l := RequestLine(4, 5, 6);
    ParsePostExample();
    ExampleTokens();
    HandleClientDispatch(19, r, UnsignedChar, l, temp, water, page);
  }
}
