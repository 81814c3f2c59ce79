/**
 * The zero-copy request-line parser `http_parse`: it finds the method and the
 * path of `METHOD SP+ PATH <delimiter>` inside the received bytes and marks
 * the end of each with a NUL written over its delimiter.
 */
module RequestParser {
  import opened Options
  import opened CStrings

  /**
   * Whether the platform's `char` is signed. The token test `*p > ' '`
   * compares `char` values, so on a signed-`char` target the bytes 0x80 to
   * 0xFF are negative and end a token.
   */
  datatype CharSign = SignedChar | UnsignedChar

  /**
   * The value C gives a received byte as a `char`: on a signed-`char` target
   * the bytes 0x80 to 0xFF wrap to -128 to -1.
   */
  function CharValue(c: char, sign: CharSign): int {
    if sign == SignedChar && c as int >= 0x80 then c as int % 0x100 - 0x100 else c as int
  }

  /**
   * The token test `*p > ' '` for one received byte, as the comparison of its
   * `char` value with 32: a byte is above space exactly when it is above `' '`
   * and, on a signed-`char` target, below 0x80.
   */
  function AboveSpace(c: char, sign: CharSign): (above: bool)
    ensures above <==> c > ' ' && (sign == UnsignedChar || c as int < 0x80)
  {
    CharValue(c, sign) > ' ' as int
  }

  /**
   * Where the run of token bytes starting at `i` stops: the first index at or
   * after `i` that is `len` or holds a byte not above space.
   */
  function TokenEnd(buf: seq<char>, len: nat, i: nat, sign: CharSign): (j: nat)
    requires i <= len <= |buf|
    ensures i <= j <= len
    ensures forall k :: i <= k < j ==> AboveSpace(buf[k], sign)
    ensures j < len ==> !AboveSpace(buf[j], sign)
    decreases len - i
  {
    if i < len && AboveSpace(buf[i], sign) then TokenEnd(buf, len, i + 1, sign) else i
  }

  /** Where the run of spaces starting at `i` stops. */
  function SpacesEnd(buf: seq<char>, len: nat, i: nat): (j: nat)
    requires i <= len <= |buf|
    ensures i <= j <= len
    ensures forall k :: i <= k < j ==> buf[k] == ' '
    ensures j < len ==> buf[j] != ' '
    decreases len - i
  {
    if i < len && buf[i] == ' ' then SpacesEnd(buf, len, i + 1) else i
  }

  /**
   * The views the parser hands out: the method is `buf[0..methodEnd]`, the
   * path is `buf[pathStart..pathEnd]`; `methodEnd` and `pathEnd` are the
   * delimiters that receive the terminating NULs.
   */
  datatype RequestLine = RequestLine(methodEnd: nat, pathStart: nat, pathEnd: nat)

  /**
   * What a successful parse of the first `len` bytes means: the method is the
   * maximal leading run of token bytes and ends on a delimiter before `len`;
   * the path starts after the spaces that follow that delimiter and is the
   * maximal run of token bytes from there, again ending on a delimiter before
   * `len`. Either token may be empty.
   */
  predicate IsRequestLine(buf: seq<char>, len: nat, sign: CharSign, l: RequestLine)
    requires len <= |buf|
  {
    && l.methodEnd < l.pathStart <= l.pathEnd < len
    && (forall k :: 0 <= k < l.methodEnd ==> AboveSpace(buf[k], sign))
    && !AboveSpace(buf[l.methodEnd], sign)
    && (forall k :: l.methodEnd < k < l.pathStart ==> buf[k] == ' ')
    && buf[l.pathStart] != ' '
    && (forall k :: l.pathStart <= k < l.pathEnd ==> AboveSpace(buf[k], sign))
    && !AboveSpace(buf[l.pathEnd], sign)
  }

  /**
   * `http_parse` on the first `len` bytes of `buf`: `None` when the method
   * token or the path token runs into the end of the received bytes.
   */
  function Parse(buf: seq<char>, len: nat, sign: CharSign): (r: Option<RequestLine>)
    requires len <= |buf|
    ensures r.Some? ==> IsRequestLine(buf, len, sign, r.value)
  {
    var methodEnd := TokenEnd(buf, len, 0, sign);
    if methodEnd >= len then
      None
    else
      var pathStart := SpacesEnd(buf, len, methodEnd + 1);
      var pathEnd := TokenEnd(buf, len, pathStart, sign);
      if pathEnd >= len then None else Some(RequestLine(methodEnd, pathStart, pathEnd))
  }

  /** Every well-formed request line is the one the parser finds: the parse is unique and never misses one. */
  lemma ParseComplete(buf: seq<char>, len: nat, sign: CharSign, l: RequestLine)
    requires len <= |buf| && IsRequestLine(buf, len, sign, l)
    ensures Parse(buf, len, sign) == Some(l)
  {
    var methodEnd := TokenEnd(buf, len, 0, sign);
    assert methodEnd == l.methodEnd;
    var pathStart := SpacesEnd(buf, len, methodEnd + 1);
    assert pathStart == l.pathStart;
    var pathEnd := TokenEnd(buf, len, pathStart, sign);
    assert pathEnd == l.pathEnd;
  }

  /** The parse fails exactly when the received bytes hold no well-formed request line. */
  lemma ParseFailsIffMalformed(buf: seq<char>, len: nat, sign: CharSign)
    requires len <= |buf|
    ensures Parse(buf, len, sign).None? <==> forall l :: !IsRequestLine(buf, len, sign, l)
  {
    if Parse(buf, len, sign).None? {
      forall l | IsRequestLine(buf, len, sign, l)
        ensures false
      {
        ParseComplete(buf, len, sign, l);
      }
    }
  }

  /** The parse reads nothing at or beyond `len`: bytes there do not change its result. */
  lemma ParseReadsOnlyReceived(buf1: seq<char>, buf2: seq<char>, len: nat, sign: CharSign)
    requires len <= |buf1| && len <= |buf2| && buf1[..len] == buf2[..len]
    ensures Parse(buf1, len, sign) == Parse(buf2, len, sign)
  {
    forall k | 0 <= k < len
      ensures buf1[k] == buf2[k]
    {
      assert buf1[..len][k] == buf2[..len][k];
    }
    match Parse(buf1, len, sign)
    case Some(l) =>
      assert IsRequestLine(buf2, len, sign, l);
      ParseComplete(buf2, len, sign, l);
    case None =>
  }

  /** The buffer after a successful parse: the two delimiters are overwritten with NUL. */
  function Terminate(buf: seq<char>, l: RequestLine): (t: seq<char>)
    requires l.methodEnd < |buf| && l.pathEnd < |buf|
    ensures |t| == |buf| && t[l.methodEnd] == NUL && t[l.pathEnd] == NUL
    ensures forall k :: 0 <= k < |buf| && k != l.methodEnd && k != l.pathEnd ==> t[k] == buf[k]
  {
    buf[l.methodEnd := NUL][l.pathEnd := NUL]
  }

  /**
   * After termination the method and the path read as C strings are exactly
   * the two tokens: the views need no copy.
   */
  lemma TokensAreCStrings(buf: seq<char>, len: nat, sign: CharSign, l: RequestLine)
    requires len <= |buf| && IsRequestLine(buf, len, sign, l)
    ensures Terminated(Terminate(buf, l), 0) && Terminated(Terminate(buf, l), l.pathStart)
    ensures CStr(Terminate(buf, l), 0) == buf[..l.methodEnd]
    ensures CStr(Terminate(buf, l), l.pathStart) == buf[l.pathStart..l.pathEnd]
  {
    var t := Terminate(buf, l);
    TerminatedAt(t, 0, l.methodEnd);
    TerminatedAt(t, l.pathStart, l.pathEnd);
    CStrIsRun(t, 0, l.methodEnd);
    CStrIsRun(t, l.pathStart, l.pathEnd);
    assert t[..l.methodEnd] == buf[..l.methodEnd];
    assert t[l.pathStart..l.pathEnd] == buf[l.pathStart..l.pathEnd];
  }

  /** The loop `while (p < end && *p > ' ') p++;` over the request buffer. */
  method ScanToken(req: array<char>, len: nat, i: nat, sign: CharSign) returns (p: nat)
    requires i <= len <= req.Length
    ensures p == TokenEnd(req[..], len, i, sign)
  {
    p := i;
    while p < len && AboveSpace(req[p], sign)
      invariant i <= p <= len
      invariant forall k :: i <= k < p ==> AboveSpace(req[k], sign)
    {
      p := p + 1;
    }
    TokenEndIs(req[..], len, i, p, sign);
  }

  /** The loop `while (p < end && *p == ' ') p++;` over the request buffer. */
  method SkipSpaces(req: array<char>, len: nat, i: nat) returns (p: nat)
    requires i <= len <= req.Length
    ensures p == SpacesEnd(req[..], len, i)
  {
    p := i;
    while p < len && req[p] == ' '
      invariant i <= p <= len
      invariant forall k :: i <= k < p ==> req[k] == ' '
    {
      p := p + 1;
    }
    SpacesEndIs(req[..], len, i, p);
  }

  /** The end of a maximal token run is the index `TokenEnd` finds. */
  lemma TokenEndIs(buf: seq<char>, len: nat, i: nat, p: nat, sign: CharSign)
    requires i <= p <= len <= |buf|
    requires forall k :: i <= k < p ==> AboveSpace(buf[k], sign)
    requires p < len ==> !AboveSpace(buf[p], sign)
    ensures TokenEnd(buf, len, i, sign) == p
  {
  }

  /** The end of a maximal run of spaces is the index `SpacesEnd` finds. */
  lemma SpacesEndIs(buf: seq<char>, len: nat, i: nat, p: nat)
    requires i <= p <= len <= |buf|
    requires forall k :: i <= k < p ==> buf[k] == ' '
    requires p < len ==> buf[p] != ' '
    ensures SpacesEnd(buf, len, i) == p
  {
  }

  /**
   * `http_parse` itself, on the request buffer in place: it scans the method,
   * writes NUL over its delimiter, skips spaces, scans the path and writes NUL
   * over the path's delimiter. It reports success, the method pointer (always
   * the buffer start) and the path pointer as indices.
   */
  method ParseInPlace(req: array<char>, len: nat, sign: CharSign) returns (ok: bool, methodAt: nat, pathAt: nat)
    requires len <= req.Length
    modifies req
    ensures ok <==> Parse(old(req[..]), len, sign).Some?
    ensures ok ==> methodAt == 0 && pathAt == Parse(old(req[..]), len, sign).value.pathStart
    ensures ok ==> req[..] == Terminate(old(req[..]), Parse(old(req[..]), len, sign).value)
    ensures TokenEnd(old(req[..]), len, 0, sign) == len ==> req[..] == old(req[..])
    ensures !ok && TokenEnd(old(req[..]), len, 0, sign) < len ==>
      req[..] == old(req[..])[TokenEnd(old(req[..]), len, 0, sign) := NUL]
  {
    ghost var buf := req[..];
    methodAt := 0;
    var methodEnd := ScanToken(req, len, 0, sign);
    if methodEnd >= len {
      return false, methodAt, methodEnd;
    }
    req[methodEnd] := NUL;
    pathAt := SkipSpaces(req, len, methodEnd + 1);
    assert pathAt == SpacesEnd(buf, len, methodEnd + 1) by {
      SpacesEndFrom(buf, req[..], len, methodEnd + 1);
    }
    var pathEnd := ScanToken(req, len, pathAt, sign);
    assert pathEnd == TokenEnd(buf, len, pathAt, sign) by {
      TokenEndFrom(buf, req[..], len, pathAt, sign);
    }
    if pathEnd >= len {
      return false, methodAt, pathAt;
    }
    req[pathEnd] := NUL;
    ok := true;
  }

  /** The scans read only from their start on: a byte written before the start does not change where they stop. */
  lemma TokenEndFrom(a: seq<char>, b: seq<char>, len: nat, i: nat, sign: CharSign)
    requires i <= len <= |a| && len <= |b|
    requires forall k :: i <= k < len ==> a[k] == b[k]
    ensures TokenEnd(a, len, i, sign) == TokenEnd(b, len, i, sign)
  {
  }

  lemma SpacesEndFrom(a: seq<char>, b: seq<char>, len: nat, i: nat)
    requires i <= len <= |a| && len <= |b|
    requires forall k :: i <= k < len ==> a[k] == b[k]
    ensures SpacesEnd(a, len, i) == SpacesEnd(b, len, i)
  {
  }

  /** A request line with no byte after the path, like the bare `GET /`, is rejected; an empty receive too. */
  lemma ParseRejectsExamples()
    ensures Parse("GET /", 5, UnsignedChar) == None
    ensures Parse("GET", 3, SignedChar) == None
    ensures Parse("", 0, SignedChar) == None
  {
    ParseFailsIffMalformed("GET /", 5, UnsignedChar);
  }

  /** The path may be empty: a delimiter other than a space ends the method and the path at once. */
  lemma ParseEmptyPathExample()
    ensures Parse("GET\r\n", 5, UnsignedChar) == Some(RequestLine(3, 4, 4))
  {
    ParseComplete("GET\r\n", 5, UnsignedChar, RequestLine(3, 4, 4));
  }

  lemma ParseRootExample()
    ensures Parse("GET / HTTP/1.1\r\n", 16, UnsignedChar) == Some(RequestLine(3, 4, 5))
  {
    ParseComplete("GET / HTTP/1.1\r\n", 16, UnsignedChar, RequestLine(3, 4, 5));
  }

  lemma ParseDataExample()
    ensures Parse("GET /data HTTP/1.1\r\n", 20, UnsignedChar) == Some(RequestLine(3, 4, 9))
  {
    ParseComplete("GET /data HTTP/1.1\r\n", 20, UnsignedChar, RequestLine(3, 4, 9));
  }

  lemma ParseOtherDataExample()
    ensures Parse("GET xdata HTTP/1.1\r\n", 20, UnsignedChar) == Some(RequestLine(3, 4, 9))
  {
    ParseComplete("GET xdata HTTP/1.1\r\n", 20, UnsignedChar, RequestLine(3, 4, 9));
  }

  lemma ParsePostExample()
    ensures Parse("POST / HTTP/1.1\r\n\r\n", 19, UnsignedChar) == Some(RequestLine(4, 5, 6))
  {
    ParseComplete("POST / HTTP/1.1\r\n\r\n", 19, UnsignedChar, RequestLine(4, 5, 6));
  }

  /** The method and path tokens of the example requests, at the boundaries their parses report. */
  lemma ExampleTokens()
    ensures "GET / HTTP/1.1\r\n"[..3] == "GET" && "GET / HTTP/1.1\r\n"[4..5] == "/"
    ensures "GET /data HTTP/1.1\r\n"[..3] == "GET" && "GET /data HTTP/1.1\r\n"[4..9] == "/data"
    ensures "GET xdata HTTP/1.1\r\n"[..3] == "GET" && "GET xdata HTTP/1.1\r\n"[4..9] == "xdata"
    ensures "POST / HTTP/1.1\r\n\r\n"[..4] == "POST"
  {
  }

  /** On an unsigned-`char` target a byte from 0x80 up belongs to the token. */
  lemma ParseUnsignedHighByteExample()
    ensures Parse("GET /\U{e9} ", 7, UnsignedChar) == Some(RequestLine(3, 4, 6))
  {
    ParseComplete("GET /\U{e9} ", 7, UnsignedChar, RequestLine(3, 4, 6));
  }

  /** On a signed-`char` target the same byte is negative and ends the path token. */
  lemma ParseSignedHighByteExample()
    ensures Parse("GET /\U{e9} ", 7, SignedChar) == Some(RequestLine(3, 4, 5))
  {
    ParseComplete("GET /\U{e9} ", 7, SignedChar, RequestLine(3, 4, 5));
  }
}
