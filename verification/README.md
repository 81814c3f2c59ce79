# Minimal HTTP responder and Rock-Paper-Scissors round: a Dafny model

This project models the pure request/response logic of the single-header HTTP
responder `cpp/http_server.h`. It also models the per-round logic of the console game
`cpp/RockPaperScissors/main.cpp`. The model proves properties of both.

The HTTP responder answers three things:
- `GET /` gets a fixed dashboard page.
- `GET /data` gets a JSON body `{"temperature":<t>,"water":<w>}` with two-decimal readings.
- Anything else gets a fixed 404 response.

A malformed request line is dropped silently: the connection closes with nothing sent.
It allocates nothing. The request is parsed in place by writing NULs over the token delimiters.
The JSON response reserves two bytes for its Content-Length and backfills them after the body is written.

Modules, one per component:

- `Decimal` (`decimal.dfy`): `http_itoa`, written as the digit text `Itoa` and as
  the scratch-buffer algorithm `WriteDecimal`. It has round trips in both
  directions against the reader `Value`.
- `FixedPoint` (`fixed_point.dfy`): `http_ftoa` over a `Hundredths` value, which
  holds the sign of the reading and the rounded count of hundredths. It has the
  decoder `DecodeFixed` and round trips in both directions.
- `JsonBody` (`json_body.dfy`): `http_build_json`, the decoder `DecodeJson`, the
  round trip, and the 33..53 bound on the body length.
- `CStrings` (`c_strings.dfy`): NUL-terminated strings in a buffer. `CStrEq` models the
  short-circuit byte comparisons the router uses.
- `RequestParser` (`request_parser.dfy`): `http_parse`. It is a pure function that
  returns token boundaries. It has a characterisation (`IsRequestLine`), uniqueness,
  independence from bytes at or beyond `len`, and the in-place array version.
- `Router` (`router.dfy`): `http_route`, as the decision `Select` plus the three
  response builders. Every response is proved framed: its Content-Length digits
  decode to its body length. Every response also fits the 1400-byte buffer.
- `Connection` (`connection.dfy`): the decision path of `http_handle_client`:
  receive result, then parse, then route, then reply or drop.
- `RockPaperScissors` (`rock_paper_scissors.dfy`): input normalisation, the
  computer's choice, the round rule, score updates and the game loop.
- `Options` (`options.dfy`): the `Option` datatype used for failure returns.

The model follows the code as written, including where it does less than its comments suggest:
- The `/data` branch of `http_route` does not compare the whole path with `/data`. See Findings.
- A token ends at any byte not above `' '`. That includes control bytes and NUL, not
  only whitespace. Only spaces are skipped between the method and the path, so
  `GET\r\n` parses with an empty path.
- A request longer than the buffer is not rejected as such. `recv` stores at most 511
  bytes. The parse fails only if those bytes do not hold a complete request line.

## Model

| member | source | states |
|---|---|---|
| Decimal.Itoa | cpp/http_server.h:134-141 | The digits written for `val` carry no leading zero (exactly `"0"` for 0), and reading them back most significant first yields `val` |
| Decimal.ItoaZero | cpp/http_server.h:137-139 | Zero is written as the single digit `0`, because the do-while extracts one digit before testing |
| Decimal.ItoaOfValue | cpp/http_server.h:134-141 | Conversely, every canonical digit string is exactly what the encoder writes for its value |
| Decimal.ItoaLength | cpp/http_server.h:134-141 | The digit count is at most `k` exactly when `val < 10^k` |
| Decimal.ItoaFitsScratch | cpp/http_server.h:134-137 | Every 32-bit `unsigned` needs 1 to 10 digits, so the ten-byte `tmp` buffer never overflows |
| Decimal.ExtractFirst | cpp/http_server.h:137 | The unconditional first pass of the do-while takes the lowest digit, so 0 yields the one digit `0` |
| Decimal.ExtractStep | cpp/http_server.h:137 | Each later pass moves the lowest pending digit of `val` to the scratch buffer, keeping pending digits plus reversed scratch equal to the decimal text |
| Decimal.ExtractDigits | cpp/http_server.h:135-137 | The do-while extraction writes at least one and at most ten digits, least significant first, and their reversal is the decimal text |
| Decimal.WriteDecimal | cpp/http_server.h:134-141 | The two loops write exactly the decimal text of `val`, and the returned count is its length, between 1 and 10 |
| FixedPoint.Ftoa | cpp/http_server.h:144-154 | The text starts with `-` exactly for a negative reading, and its length is sign + whole digits + 3 |
| FixedPoint.FtoaLength | cpp/http_server.h:148-153 | The text is 4 to 14 bytes long |
| FixedPoint.FtoaAlphabet | cpp/http_server.h:146-152 | The text holds only `-`, digits and `.`, so it has no comma and no NUL |
| FixedPoint.FtoaDigits | cpp/http_server.h:146-152 | After the optional `-`, the text holds the whole part `fixed/100` in canonical decimal, then `.`, then two digits whose value is `fixed%100` |
| FixedPoint.FtoaOfParts | cpp/http_server.h:144-154 | A reading of `w` whole units and digits `d1 d2` is written as the sign, `w` in decimal, a point and those two digits |
| FixedPoint.FtoaRoundTrip | cpp/http_server.h:144-154 | Decoding the text recovers the sign and the hundredths: whole part, point, exactly two fraction digits |
| FixedPoint.DecodeFixedIsFtoa | cpp/http_server.h:144-154 | Every decodable two-decimal text whose whole part fits 32 bits is exactly the encoder's output for its value |
| FixedPoint.FtoaExample | cpp/http_server.h:144-154 | 22.00 is written `22.00`, 50.00 is written `50.00`, and a negative reading of 5 hundredths is written `-0.05` |
| JsonBody.BuildJson | cpp/http_server.h:157-169 | The body starts with `{"temperature":`, ends with `}`, and is 25 bytes longer than the two readings' texts |
| JsonBody.JsonLengthTwoDigits | cpp/http_server.h:157-169 | Under the 32-bit whole-part bound the body is 33 to 53 bytes, so its length has exactly two decimal digits |
| JsonBody.DecodeJsonOfMiddle | cpp/http_server.h:157-169 | A body framed by the temperature field and the closing brace decodes as the text between them |
| JsonBody.DecodeReadingsOfParts | cpp/http_server.h:160-166 | Two decodable reading texts joined by the water field, the first without a comma, decode to those two readings |
| JsonBody.DecodeJsonOfParts | cpp/http_server.h:157-169 | Any body made of the field texts and two decodable readings, the first without a comma, decodes to those readings |
| JsonBody.JsonRoundTrip | cpp/http_server.h:157-169 | The body decodes back to exactly the temperature and water readings it was built from |
| JsonBody.JsonExample | cpp/http_server.h:157-169 | Temperature 22.00 and water 50.00 give `{"temperature":22.00,"water":50.00}` |
| CStrings.NulFrom | cpp/http_server.h:192-205 | The scan stops at the first NUL at or after the start, or at the buffer's end |
| CStrings.CStr | cpp/http_server.h:192-205 | The C string at an index ends at a NUL inside the buffer and contains no NUL |
| CStrings.CStrStep | cpp/http_server.h:192-205 | A C string whose first byte is not NUL is that byte followed by the C string one byte on |
| CStrings.CStrTail | cpp/http_server.h:205 | Reading a non-empty C string one byte on gives the string without its first byte |
| CStrings.CStrEq | cpp/http_server.h:192-205 | The short-circuit byte-by-byte test `s[0]==..&&..&&!s[n]` holds exactly when the C string equals the literal |
| CStrings.CStrIsRun | cpp/http_server.h:177-182 | A run of non-NUL bytes closed by a NUL is the C string at its start |
| CStrings.CStrIsLiteral | cpp/http_server.h:205 | A NUL-free literal followed by a NUL in the buffer is the C string read there |
| CStrings.CStrIgnoresTail | cpp/http_server.h:192-205 | Bytes after a C string's terminating NUL do not change the string that is read |
| RequestParser.TokenEnd | cpp/http_server.h:175-176 | The token scan stops at the end of the maximal run of bytes above `' '`, or at `len` |
| RequestParser.SpacesEnd | cpp/http_server.h:178 | The space skip stops at the first byte that is not a space, or at `len` |
| RequestParser.AboveSpace | cpp/http_server.h:175-180 | The test `*p > ' '` on the byte's `char` value holds exactly for bytes above `' '`, except that where `char` is signed the bytes 0x80 and above are negative and fail it |
| RequestParser.Parse | cpp/http_server.h:172-184 | A successful parse yields a well-formed request line: the method is the maximal leading run, the path is the maximal run after the spaces that follow the first delimiter, and both delimiters lie before `len` |
| RequestParser.ParseComplete | cpp/http_server.h:172-184 | Every well-formed request line is the one the parser returns, so the parse is unique |
| RequestParser.ParseFailsIffMalformed | cpp/http_server.h:172-184 | The parse fails exactly when the received bytes hold no well-formed request line |
| RequestParser.ParseReadsOnlyReceived | cpp/http_server.h:173-181 | Bytes at or beyond `req+len` never affect the result |
| RequestParser.Terminate | cpp/http_server.h:177-182 | Only the method delimiter and the path delimiter are overwritten with NUL |
| RequestParser.TokensAreCStrings | cpp/http_server.h:177-182 | After the two NUL writes, the C strings at the method and path pointers are exactly the two tokens |
| RequestParser.ScanToken | cpp/http_server.h:175 | The pointer loop over the array stops where `TokenEnd` says |
| RequestParser.SkipSpaces | cpp/http_server.h:178 | The space-skipping loop over the array stops where `SpacesEnd` says |
| RequestParser.TokenEndIs | cpp/http_server.h:175-176 | Any index ending a maximal token run is the scan's result |
| RequestParser.SpacesEndIs | cpp/http_server.h:178 | Any index ending a maximal run of spaces is the skip's result |
| RequestParser.TokenEndFrom | cpp/http_server.h:177-180 | The path scan reads only from its start on, so the NUL written over the method delimiter does not move it |
| RequestParser.SpacesEndFrom | cpp/http_server.h:177-178 | Likewise for the space skip |
| RequestParser.ParseInPlace | cpp/http_server.h:172-184 | The in-place parse succeeds exactly when `Parse` does, and then leaves the buffer with only the two delimiters set to NUL. A failing method scan writes nothing. A failing path scan leaves only the NUL at the method delimiter |
| RequestParser.ParseRejectsExamples | cpp/http_server.h:176-181 | `GET /` with no byte after the path, a bare `GET` and an empty receive are all rejected |
| RequestParser.ParseEmptyPathExample | cpp/http_server.h:175-182 | `GET\r\n` parses with an empty path |
| RequestParser.ParseRootExample | cpp/http_server.h:172-184 | `GET / HTTP/1.1\r\n` parses with the method ending at 3 and the path at 4..5 |
| RequestParser.ParseDataExample | cpp/http_server.h:172-184 | `GET /data HTTP/1.1\r\n` parses with the path at 4..9 |
| RequestParser.ParseOtherDataExample | cpp/http_server.h:172-184 | `GET xdata HTTP/1.1\r\n` parses with the path at 4..9 |
| RequestParser.ParsePostExample | cpp/http_server.h:172-184 | `POST / HTTP/1.1` parses with the method ending at 4 |
| RequestParser.ExampleTokens | cpp/http_server.h:172-184 | At those boundaries the example requests' tokens are `GET` with `/`, `/data` or `xdata`, and `POST` |
| RequestParser.ParseUnsignedHighByteExample | cpp/http_server.h:180 | Where `char` is unsigned, a byte 0x80 or above belongs to the path token |
| RequestParser.ParseSignedHighByteExample | cpp/http_server.h:180 | Where `char` is signed, the same byte is negative and ends the path token |
| Router.Select | cpp/http_server.h:192-205 | The page is chosen exactly for method `GET` and path `/`. The JSON reading is chosen exactly for `GET`, a path other than `/`, and the C string one byte after the path start equal to `data` |
| Router.SelectDecision | cpp/http_server.h:192-205 | Given the three C strings the conditions read, the choice is: the page, else the JSON reading, else 404 |
| Router.BackfillIsDecimal | cpp/http_server.h:221-223 | For a length of 10 to 99, the bytes `'0'+len/10` and `'0'+len%10` are exactly its decimal text |
| Router.FramedOfParts | cpp/http_server.h:194-224 | A response assembled as header, canonical decimal length of the body, `Connection: close` and blank line, then the body, is framed: its Content-Length is its body length |
| Router.PageResponse | cpp/http_server.h:194-203 | The page response is framed: its Content-Length is the page length in decimal, followed by the page. With the 1255-byte page it fits 1400 bytes |
| Router.DataResponse | cpp/http_server.h:205-224 | The two backfilled Content-Length bytes are the canonical decimal length of the JSON body. The body decodes back to the snapshot, and the response fits 1400 bytes |
| Router.Respond | cpp/http_server.h:194-230 | Each response kind is framed with its own header and body. The JSON body decodes to the snapshot. The 404 response is the 99 fixed bytes. With the 1255-byte page every response fits 1400 bytes |
| Router.NotFoundIsFramed | cpp/http_server.h:96 | The fixed 404 response is 99 bytes, and its hard-coded Content-Length `9` is the decimal length of its body `Not Found` |
| Router.Route | cpp/http_server.h:190-231 | The response is a total three-way dispatch, and its Content-Length always equals its body length. The JSON body decodes back to the sensor snapshot. The 404 response is `g_http_404`. The whole response fits `HTTP_RESPONSE_BUFFER` |
| Router.RouteIgnoresTail | cpp/http_server.h:192-205 | The router reads nothing past the NULs that end the method and the bytes after the path start, so appended bytes do not change the response |
| Router.SelectIgnoresFirstPathByte | cpp/http_server.h:205 | As written, the path `xdata` selects the JSON reading. The corrected decision rejects it |
| Router.SelectReadsPastEmptyPath | cpp/http_server.h:205 | As written, an empty path followed in the buffer by `data` and a NUL selects the JSON reading. The corrected decision rejects it |
| Router.SelectExact | cpp/http_server.h:204-205 | Corrected decision: the JSON reading exactly for `GET` and the path `/data` |
| Connection.ReceivedParse | cpp/http_server.h:269-274 | The NUL written at index `n` does not change the parse of the `n` received bytes |
| Connection.BufferAt | cpp/http_server.h:272-282 | After the path's delimiter the buffer holds the received bytes and then the NUL at `n` |
| Connection.BufferAfterPath | cpp/http_server.h:272-282 | The bytes received after the path delimiter are unchanged in the buffer, and index `n` holds NUL |
| Connection.BufferTerminated | cpp/http_server.h:269-279 | In the buffer the router reads, the method, the path and the byte after the path start are NUL-terminated, and the method and path read as the two tokens |
| Connection.HandleClient | cpp/http_server.h:269-281 | Nothing is sent exactly when `recv` returns 0 or less or the request line is malformed. Otherwise the routed response is sent, and with the real page it fits the response buffer |
| Connection.NonEmptyPathTail | cpp/http_server.h:205 | With a non-empty path, the `/data` test reads the path without its first byte |
| Connection.EmptyPathReadsAhead | cpp/http_server.h:205 | With an empty path, the `/data` test reads the received bytes after the path's NUL |
| Connection.DataFollowsIsRead | cpp/http_server.h:205 | Received bytes `data` and a NUL right after an empty path pass the test |
| Connection.ReadIsDataFollows | cpp/http_server.h:205 | Conversely, passing the test with an empty path means those received bytes are `data` and a NUL |
| Connection.PathTailIsData | cpp/http_server.h:205 | The `/data` test on the buffer passes exactly when the request's path passes the token-level test |
| Connection.SelectOnTokens | cpp/http_server.h:269-279 | On the received tokens, the router's choice equals the token-level rule. The page goes exactly to `GET /`. The JSON reading goes exactly to `GET` with a five-byte path ending in `data`, or with an empty path followed by received `data` and a NUL. Everything else gets 404 |
| Connection.HandleClientDispatch | cpp/http_server.h:269-281 | A parsed request is always answered, with the response of the kind the token-level rule picks |
| Connection.FiveBytePathServesData | cpp/http_server.h:205-224 | `GET` with any five-byte path whose last four bytes are `data` is answered with the JSON response |
| Connection.HandleClientDropsMalformed | cpp/http_server.h:269-277 | A receive of 0 or -1 bytes, and the bare `GET /`, are dropped with nothing sent |
| Connection.HandleClientServesPage | cpp/http_server.h:194-203 | `GET / HTTP/1.1` is answered with the page response |
| Connection.HandleClientServesData | cpp/http_server.h:205-224 | `GET /data HTTP/1.1` is answered with the JSON response |
| Connection.HandleClientServesDataForAnyFirstByte | cpp/http_server.h:205 | `GET xdata HTTP/1.1` is also answered with the JSON response |
| Connection.HandleClientNotFound | cpp/http_server.h:228-230 | `POST / HTTP/1.1` is answered with exactly the 404 bytes |
| RockPaperScissors.ToUpper | cpp/RockPaperScissors/main.cpp:24-25 | Only `a` to `z` change, each to the letter 32 code points lower, in `A` to `Z` |
| RockPaperScissors.ChoiceOf | cpp/RockPaperScissors/main.cpp:34-37 | Only `R`, `P` and `S` name a choice, and each names the choice with that letter |
| RockPaperScissors.ComputerChoice | cpp/RockPaperScissors/main.cpp:41-54 | Random numbers 0, 1 and 2 give `R`, `P` and `S` |
| RockPaperScissors.Decide | cpp/RockPaperScissors/main.cpp:56-67 | The written rule agrees with the cyclic rule: the difference of the rock/paper/scissors positions modulo 3 is 0 for a tie, 1 for a user win and 2 for a computer win |
| RockPaperScissors.Award | cpp/RockPaperScissors/main.cpp:56-67 | The winner's score, and only the winner's, rises by one. A tie changes nothing |
| RockPaperScissors.DecideSwaps | cpp/RockPaperScissors/main.cpp:56-67 | Equal choices, and only they, tie. Swapping the choices swaps a win and a loss |
| RockPaperScissors.PlayRound | cpp/RockPaperScissors/main.cpp:25-67 | `E` or `e` ends the game, and any input other than R/P/S/E (either case) is rejected; both leave the scores unchanged. Otherwise the user's letter is the upper-cased input and the computer plays `rand % 3`. A tie changes nothing, and a win or loss adds one to that player's score only |
| RockPaperScissors.PlayRoundIgnoresCase | cpp/RockPaperScissors/main.cpp:25 | Lower-case input behaves exactly like its upper-case letter |
| RockPaperScissors.PlayRoundScoreStep | cpp/RockPaperScissors/main.cpp:56-67 | No score falls. The total rises by at most one, and by exactly one when a round is played and not tied |
| RockPaperScissors.Play | cpp/RockPaperScissors/main.cpp:19-72 | Over a game that stops at the first exit, the scores never fall, and the total rises by at most the number of rounds read |
| RockPaperScissors.PlayStopsAtExit | cpp/RockPaperScissors/main.cpp:28-31 | Typing `e` ends the game at once with the scores unchanged, whatever input follows |

## Findings

| source | as written | input that shows it | evidently intended | confidence | as-written member | corrected member |
|---|---|---|---|---|---|---|
| cpp/http_server.h:205 | The `/data` test checks path bytes 1 to 5 against `data` and NUL, and never checks byte 0. With an empty path it reads past the path's terminator | `GET xdata HTTP/1.1`; also `GET \ndata` received with nothing after it | JSON only for the path `/data`, as the comment on line 204 and the page's `fetch('/data')` say | high; not executed | Router.SelectIgnoresFirstPathByte, Router.SelectReadsPastEmptyPath | Router.SelectExact |

`Router.Route` and `Connection.HandleClient` keep the as-written `Router.Select`,
because they model what the code does. `Router.SelectExact` states the
intended dispatch and proves that only `/data` reaches the JSON response.
The reads of the as-written test stay inside the request buffer. The NUL at
index `n` stops them (`Connection.BufferTerminated`, `Router.RouteIgnoresTail`).

## Left out

- Sockets and server lifecycle are OS I/O with no pure behaviour to state. This covers socket creation, bind, listen and non-blocking mode in `http_server_init`, and `accept` in `http_server_poll`. It also covers the `setsockopt` timeouts and linger, the retry loop of `http_send_all`, `http_server_shutdown` and `WSAStartup`/`WSACleanup`.
- `Connection.HandleClient`: the receive result and the received bytes are inputs. Whether `http_send_all` succeeds is not modelled: the outcome is the response handed to it. The socket is closed on every path, so the close is not represented.
- Request-buffer bytes past the NUL at index `n` are not modelled. They are stale data from earlier connections. `Router.RouteIgnoresTail` shows they are never read.
- The atomic read/write macros and the `volatile` sensor globals are concurrency discipline. The sensor snapshot is passed to the router as two `Hundredths` parameters.
- Float arithmetic in `http_ftoa` (`val*100.0f+0.5f` and the cast) is not modelled. The model's input is the resulting `fixed` count of hundredths plus the sign. That count depends on how the compiler evaluates the float expression: 9.995f renders `10.00` when it is evaluated in single precision, but `9.99` with wider intermediates (x87 or double evaluation).
- `FixedPoint.Ftoa`: requires the whole part `fixed/100` to fit 32 bits (`Encodable`), so it does not model the narrowing `unsigned whole = fixed / 100u`. Where `unsigned long` is 64 bits (LP64 hosts), the cast to `fixed` is defined for finite readings below about 1.8e17, and the whole part then wraps modulo 2^32. `Encodable` excludes that wrap-around. Where `unsigned long` is 32 bits (ESP32, Windows, 32-bit POSIX hosts), the float-to-integer cast is undefined once `val*100.0f+0.5f` reaches 2^32. There, magnitudes of 2^32 and up are `Encodable` but model no execution: for example, the model renders a magnitude of 5000000000 hundredths as `50000000.00`, while the source's behaviour is undefined. Exactly which readings reach 2^32 depends on how the float expression is evaluated. In single precision, 42949672.0f already does. For infinite or NaN readings, and on every target for readings at or above 2^64 hundredths, the cast is undefined.
- `Router.Route` and `Connection.HandleClient` (with the lemmas built on them) require `Encodable` for both sensor readings on every request. That includes the page and 404 paths, which never read the sensors.
- The dashboard page is an opaque parameter. Its real length, `HTML_LEN` = 1255 bytes, is the constant `Router.HtmlLen`.
- `http_route` returns a byte count. The model returns the byte sequence, and its length is that count.
- Whether `char` is signed is implementation-defined, so it is a parameter (`RequestParser.CharSign`) of the token test `*p > ' '`.
- `HTTP_JSON_BODY_MAX` (44) is declared but never used. JSON bodies can reach 53 bytes, which still fits the response buffer.
- Rock-Paper-Scissors console I/O is not modelled: `cin`, `cout` and the result strings. `srand(time(0))` and `rand()` are also left out. The character read and the value `rand()` returns are inputs.
- Rock-Paper-Scissors scores are unbounded integers. The source's `int` could overflow only after 2^31 wins.
- `toupper` on a negative `char` is undefined in C. The model applies the C-locale mapping of `a`..`z` only.
- `cpp/main.cpp` is out of scope: its random-walk sensor simulation, hostname lookup, `printf` and sleep loop.
- `cpp/Recall/trade.cpp` and `cpp/Recall/trade.h` are out of scope: a constructor plus library float formatting.
- `cpp/SMA/src/DataLoader.cpp` is out of scope: it does file I/O and its function is unfinished.
- `cpp/MemoryAlocation/main.cpp` is out of scope: a new/delete demonstration with no logic.
