/**
 * The fixed router and response builder `http_route`: a three-way dispatch on
 * the method and path C strings to the dashboard page, the JSON sensor
 * reading, or the fixed 404 response.
 */
module Router {
  import opened Decimal
  import opened FixedPoint
  import opened JsonBody
  import opened CStrings
  import opened Options

  /** Capacity of the response buffer. */
  const ResponseBufferSize: nat := 1400

  /** Length of the dashboard page, `sizeof(g_html_page) - 1`. */
  const HtmlLen: nat := 1255

  const Http200Html: seq<char> := "HTTP/1.1 200 OK\r\nContent-Type: text/html; charset=utf-8\r\nContent-Length: "
  const Http200Json: seq<char> := "HTTP/1.1 200 OK\r\nContent-Type: application/json\r\nContent-Length: "
  const ConnectionClose: seq<char> := "\r\nConnection: close\r\n\r\n"

  /** The 404 response up to its length digits, and its body. */
  const NotFoundHead: seq<char> := "HTTP/1.1 404 Not Found\r\nContent-Type: text/plain\r\nContent-Length: "
  const NotFoundBody: seq<char> := "Not Found"

  /**
   * The fixed 404 response `g_http_404`, byte for byte: its head, the
   * hard-coded length `9`, the same closing headers as the 200 responses, and
   * the body.
   */
  const Http404: seq<char> := NotFoundHead + "9" + ConnectionClose + NotFoundBody

  /** The three responses the router can produce. */
  datatype Endpoint = Dashboard | SensorData | NotFound

  /**
   * The decision of `http_route`, reading the method and path C strings the
   * way its conditions do: the method must be exactly `GET`; the path `/`
   * selects the page; otherwise bytes 1 to 5 after the path start are
   * compared with `data` and a NUL, without looking at byte 0.
   */
  function Select(buf: seq<char>, methodAt: nat, pathAt: nat): (e: Endpoint)
    requires Terminated(buf, methodAt) && Terminated(buf, pathAt) && Terminated(buf, pathAt + 1)
    ensures e == Dashboard <==> CStr(buf, methodAt) == "GET" && CStr(buf, pathAt) == "/"
    ensures e == SensorData <==>
      CStr(buf, methodAt) == "GET" && CStr(buf, pathAt) != "/" && CStr(buf, pathAt + 1) == "data"
  {
    if CStrEq(buf, methodAt, "GET") then
      if CStrEq(buf, pathAt, "/") then Dashboard
      else if CStrEq(buf, pathAt + 1, "data") then SensorData
      else NotFound
    else
      NotFound
  }

  /** The decision from the method, the path and the bytes after the path start, read as C strings. */
  lemma SelectDecision(buf: seq<char>, methodAt: nat, pathAt: nat, requestMethod: seq<char>, path: seq<char>, data: bool)
    requires Terminated(buf, methodAt) && Terminated(buf, pathAt) && Terminated(buf, pathAt + 1)
    requires CStr(buf, methodAt) == requestMethod && CStr(buf, pathAt) == path
    requires data <==> CStr(buf, pathAt + 1) == "data"
    ensures Select(buf, methodAt, pathAt)
         == if requestMethod == "GET" && path == "/" then Dashboard
            else if requestMethod == "GET" && data then SensorData
            else NotFound
  {
  }

  /**
   * The page response: the 200 html header, the page length in decimal, the
   * closing headers, the page. Its Content-Length is the page's length, and
   * with the real page it fits the response buffer.
   */
  function PageResponse(page: seq<char>): (resp: seq<char>)
    ensures Framed(resp, Http200Html, page)
    ensures |page| == HtmlLen ==> |resp| <= ResponseBufferSize
  {
    FramedOfParts(Http200Html, Itoa(|page|), page);
    ItoaLength(|page|, 4);
    Http200Html + Itoa(|page|) + ConnectionClose + page
  }

  /** Two backfilled digits always spell a length of ten to ninety-nine. */
  lemma BackfillIsDecimal(n: nat)
    requires 10 <= n <= 99
    ensures [DigitChar(n / 10), DigitChar(n % 10)] == Itoa(n)
  {
  }

  /**
   * The JSON response: the 200 json header, two reserved bytes, the closing
   * headers and the body; the reserved bytes are then backfilled with
   * `'0' + len / 10` and `'0' + len % 10`. The backfilled length is the
   * body's length, the body decodes back to the snapshot, and the response
   * fits the response buffer.
   */
  function DataResponse(temp: Hundredths, water: Hundredths): (resp: seq<char>)
    requires Encodable(temp) && Encodable(water)
    ensures Framed(resp, Http200Json, BuildJson(temp, water))
    ensures DecodeJson(resp[|resp| - |BuildJson(temp, water)|..]) == Some((temp, water))
    ensures |resp| <= ResponseBufferSize
  {
    var body := BuildJson(temp, water);
    JsonLengthTwoDigits(temp, water);
    BackfillIsDecimal(|body|);
    FramedOfParts(Http200Json, Itoa(|body|), body);
    JsonRoundTrip(temp, water);
    Http200Json + [DigitChar(|body| / 10), DigitChar(|body| % 10)] + ConnectionClose + body
  }

  /**
   * The bytes written for an endpoint: each kind is framed with its header
   * and body, the JSON body decodes to the snapshot, the 404 response is the
   * 99 fixed bytes, and with the real page every response fits the buffer.
   */
  function Respond(e: Endpoint, temp: Hundredths, water: Hundredths, page: seq<char>): (resp: seq<char>)
    requires Encodable(temp) && Encodable(water)
    ensures e == Dashboard ==> Framed(resp, Http200Html, page)
    ensures e == SensorData ==>
      && Framed(resp, Http200Json, BuildJson(temp, water))
      && DecodeJson(resp[|resp| - |BuildJson(temp, water)|..]) == Some((temp, water))
    ensures e == NotFound ==> resp == Http404 && Framed(resp, NotFoundHead, NotFoundBody) && |resp| == 99
    ensures |page| == HtmlLen ==> |resp| <= ResponseBufferSize
  {
    match e
    case Dashboard => PageResponse(page)
    case SensorData => DataResponse(temp, water)
    case NotFound => NotFoundIsFramed(); Http404
  }

  /**
   * A response is framed when it is `head`, a canonical decimal, the closing
   * headers and `body`, and that decimal is the body's length: the
   * Content-Length header tells the client exactly how many body bytes follow.
   */
  predicate Framed(resp: seq<char>, head: seq<char>, body: seq<char>) {
    && |resp| >= |head| + |ConnectionClose| + |body|
    && resp[..|head|] == head
    && resp[|resp| - |body| - |ConnectionClose|..|resp| - |body|] == ConnectionClose
    && resp[|resp| - |body|..] == body
    && Canonical(resp[|head|..|resp| - |body| - |ConnectionClose|])
    && Value(resp[|head|..|resp| - |body| - |ConnectionClose|]) == |body|
  }

  lemma FramedOfParts(head: seq<char>, digits: seq<char>, body: seq<char>)
    requires Canonical(digits) && Value(digits) == |body|
    ensures Framed(head + digits + ConnectionClose + body, head, body)
  {
    var resp := head + digits + ConnectionClose + body;
    assert resp[..|head|] == head;
    assert resp[|head|..|resp| - |body| - |ConnectionClose|] == digits;
    assert resp[|resp| - |body| - |ConnectionClose|..|resp| - |body|] == ConnectionClose;
    assert resp[|resp| - |body|..] == body;
  }

  /** The hard-coded length of the fixed 404 response is the decimal length of its body. */
  lemma NotFoundIsFramed()
    ensures Itoa(|NotFoundBody|) == "9"
    ensures Framed(Http404, NotFoundHead, NotFoundBody)
    ensures |Http404| == 99
  {
    assert |NotFoundBody| == 9;
    FramedOfParts(NotFoundHead, "9", NotFoundBody);
  }

  /**
   * `http_route`: the response for the method at `methodAt` and the path at
   * `pathAt` of the terminated request buffer, given the sensor snapshot and
   * the dashboard page. Every response carries a Content-Length equal to its
   * body's length, the JSON body decodes back to the snapshot, and with the
   * real page every response fits the response buffer.
   */
  function Route(buf: seq<char>, methodAt: nat, pathAt: nat, temp: Hundredths, water: Hundredths, page: seq<char>): (resp: seq<char>)
    requires Terminated(buf, methodAt) && Terminated(buf, pathAt) && Terminated(buf, pathAt + 1)
    requires Encodable(temp) && Encodable(water)
    ensures Select(buf, methodAt, pathAt) == Dashboard ==> Framed(resp, Http200Html, page)
    ensures Select(buf, methodAt, pathAt) == SensorData ==>
      && Framed(resp, Http200Json, BuildJson(temp, water))
      && DecodeJson(resp[|resp| - |BuildJson(temp, water)|..]) == Some((temp, water))
    ensures Select(buf, methodAt, pathAt) == NotFound ==>
      resp == Http404 && Framed(resp, NotFoundHead, NotFoundBody) && |resp| == 99
    ensures |page| == HtmlLen ==> |resp| <= ResponseBufferSize
  {
    Respond(Select(buf, methodAt, pathAt), temp, water, page)
  }

  /** Bytes after the NUL that ends the path are never read: appending to the buffer changes nothing. */
  lemma RouteIgnoresTail(buf: seq<char>, tail: seq<char>, methodAt: nat, pathAt: nat,
                         temp: Hundredths, water: Hundredths, page: seq<char>)
    requires Terminated(buf, methodAt) && Terminated(buf, pathAt) && Terminated(buf, pathAt + 1)
    requires Encodable(temp) && Encodable(water)
    ensures Terminated(buf + tail, methodAt) && Terminated(buf + tail, pathAt) && Terminated(buf + tail, pathAt + 1)
    ensures Route(buf + tail, methodAt, pathAt, temp, water, page) == Route(buf, methodAt, pathAt, temp, water, page)
  {
    CStrIgnoresTail(buf, tail, methodAt);
    CStrIgnoresTail(buf, tail, pathAt);
    CStrIgnoresTail(buf, tail, pathAt + 1);
    var requestMethod, path, data := CStr(buf, methodAt), CStr(buf, pathAt), CStr(buf, pathAt + 1) == "data";
    SelectDecision(buf, methodAt, pathAt, requestMethod, path, data);
    SelectDecision(buf + tail, methodAt, pathAt, requestMethod, path, data);
  }

  /**
   * The corrected decision: the `/data` branch compares the whole path,
   * byte 0 included, with `/data`.
   */
  function SelectExact(buf: seq<char>, methodAt: nat, pathAt: nat): (e: Endpoint)
    requires Terminated(buf, methodAt) && Terminated(buf, pathAt)
    ensures e == Dashboard <==> CStr(buf, methodAt) == "GET" && CStr(buf, pathAt) == "/"
    ensures e == SensorData <==> CStr(buf, methodAt) == "GET" && CStr(buf, pathAt) == "/data"
  {
    if CStrEq(buf, methodAt, "GET") then
      if CStrEq(buf, pathAt, "/") then Dashboard
      else if CStrEq(buf, pathAt, "/data") then SensorData
      else NotFound
    else
      NotFound
  }

  /** As written, `http_route` serves the JSON reading for the path `xdata`; the corrected decision does not. */
  lemma SelectIgnoresFirstPathByte()
    ensures Terminated("GET\0xdata\0", 0) && Terminated("GET\0xdata\0", 4) && Terminated("GET\0xdata\0", 5)
    ensures CStr("GET\0xdata\0", 4) == "xdata"
    ensures Select("GET\0xdata\0", 0, 4) == SensorData
    ensures SelectExact("GET\0xdata\0", 0, 4) == NotFound
  {
    var buf := "GET\0xdata\0";
    CStrIsLiteral(buf, 0, "GET");
    CStrIsLiteral(buf, 4, "xdata");
    CStrIsLiteral(buf, 5, "data");
    SelectDecision(buf, 0, 4, "GET", "xdata", true);
  }

  /**
   * As written, an empty path is served the JSON reading when the buffer
   * holds `data` and a NUL after the path's own NUL: the test reads past the
   * end of the path.
   */
  lemma SelectReadsPastEmptyPath()
    ensures Terminated("GET\0\0data\0", 0) && Terminated("GET\0\0data\0", 4) && Terminated("GET\0\0data\0", 5)
    ensures CStr("GET\0\0data\0", 4) == ""
    ensures Select("GET\0\0data\0", 0, 4) == SensorData
    ensures SelectExact("GET\0\0data\0", 0, 4) == NotFound
  {
    var buf := "GET\0\0data\0";
    CStrIsLiteral(buf, 0, "GET");
    CStrIsLiteral(buf, 4, "");
    CStrIsLiteral(buf, 5, "data");
    SelectDecision(buf, 0, 4, "GET", "", true);
  }
}
