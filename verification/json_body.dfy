/**
 * The `/data` response body built by `http_build_json`:
 * `{"temperature":<t>,"water":<w>}` with both readings in two-decimal text.
 */
module JsonBody {
  import opened Options
  import opened Decimal
  import opened FixedPoint

  /** The bytes written before the temperature. */
  const TemperatureField: seq<char> := "{\"temperature\":"

  /** The bytes written between the two readings. */
  const WaterField: seq<char> := ",\"water\":"

  /** Fixed bytes of the body: both field texts and the closing brace. */
  const JsonOverhead: nat := |TemperatureField| + |WaterField| + 1

  /** The body `http_build_json` writes for a temperature and a water level. */
  function BuildJson(temp: Hundredths, water: Hundredths): (body: seq<char>)
    requires Encodable(temp) && Encodable(water)
    ensures |body| == JsonOverhead + |Ftoa(temp)| + |Ftoa(water)|
    ensures body[..|TemperatureField|] == TemperatureField && body[|body| - 1] == '}'
  {
    TemperatureField + Ftoa(temp) + WaterField + Ftoa(water) + "}"
  }

  /**
   * Under the 32-bit bound on whole parts the body is 33 to 53 bytes long, so
   * its length always has exactly two decimal digits.
   */
  lemma JsonLengthTwoDigits(temp: Hundredths, water: Hundredths)
    requires Encodable(temp) && Encodable(water)
    ensures 33 <= |BuildJson(temp, water)| <= 53
    ensures |Itoa(|BuildJson(temp, water)|)| == 2
  {
    FtoaLength(temp);
    FtoaLength(water);
    var n := |BuildJson(temp, water)|;
    assert Itoa(n) == Itoa(n / 10) + [DigitChar(n % 10)];
  }

  /** The first position of `c` in `s`, or `|s|` when there is none. */
  function IndexOf(s: seq<char>, c: char): (k: nat)
    ensures k <= |s|
    ensures k < |s| ==> s[k] == c
    ensures forall i :: 0 <= i < k ==> s[i] != c
  {
    if s == [] then 0 else if s[0] == c then 0 else 1 + IndexOf(s[1..], c)
  }

  lemma IndexOfAfterPrefix(a: seq<char>, b: seq<char>, c: char)
    requires forall i :: 0 <= i < |a| ==> a[i] != c
    requires |b| > 0 && b[0] == c
    ensures IndexOf(a + b, c) == |a|
  {
    assert (a + b)[|a|] == c;
  }

  /**
   * Reads a body back: the temperature field, the readings, and the closing
   * brace. Anything else is rejected.
   */
  function DecodeJson(body: seq<char>): Option<(Hundredths, Hundredths)> {
    if |body| >= |TemperatureField| + 1 && body[..|TemperatureField|] == TemperatureField && body[|body| - 1] == '}' then
      DecodeReadings(body[|TemperatureField|..|body| - 1])
    else
      None
  }

  /** Reads the text between the fields: a reading up to the first comma, the water field, a reading. */
  function DecodeReadings(middle: seq<char>): Option<(Hundredths, Hundredths)> {
    var k := IndexOf(middle, ',');
    if k + |WaterField| <= |middle| && middle[k..k + |WaterField|] == WaterField then
      match (DecodeFixed(middle[..k]), DecodeFixed(middle[k + |WaterField|..]))
      case (Some(t), Some(w)) => Some((t, w))
      case _ => None
    else
      None
  }

  lemma SplitThree(a: seq<char>, b: seq<char>, c: seq<char>)
    ensures (a + b + c)[..|a|] == a
    ensures (a + b + c)[|a|..|a| + |b|] == b
    ensures (a + b + c)[|a| + |b|..] == c
  {
  }

  /** A body made of the temperature field, some text and the closing brace is decoded from that text. */
  lemma DecodeJsonOfMiddle(middle: seq<char>)
    ensures DecodeJson(TemperatureField + middle + "}") == DecodeReadings(middle)
  {
    var body := TemperatureField + middle + "}";
    SplitThree(TemperatureField, middle, "}");
    assert body[|body| - 1] == '}';
  }

  /** Two texts that decode, the first without a comma, joined by the water field decode to their readings. */
  lemma DecodeReadingsOfParts(t: seq<char>, w: seq<char>, a: Hundredths, b: Hundredths)
    requires forall i :: 0 <= i < |t| ==> t[i] != ','
    requires DecodeFixed(t) == Some(a) && DecodeFixed(w) == Some(b)
    ensures DecodeReadings(t + WaterField + w) == Some((a, b))
  {
    IndexOfAfterPrefix(t, WaterField + w, ',');
    assert t + (WaterField + w) == t + WaterField + w;
    SplitThree(t, WaterField, w);
  }

  /** Any body made of two texts that decode, the first without a comma, decodes to their readings. */
  lemma DecodeJsonOfParts(t: seq<char>, w: seq<char>, a: Hundredths, b: Hundredths)
    requires forall i :: 0 <= i < |t| ==> t[i] != ','
    requires DecodeFixed(t) == Some(a) && DecodeFixed(w) == Some(b)
    ensures DecodeJson(TemperatureField + t + WaterField + w + "}") == Some((a, b))
  {
    assert TemperatureField + t + WaterField + w + "}" == TemperatureField + (t + WaterField + w) + "}";
    DecodeJsonOfMiddle(t + WaterField + w);
    DecodeReadingsOfParts(t, w, a, b);
  }

  /** The body decodes back to the two readings it was built from. */
  lemma JsonRoundTrip(temp: Hundredths, water: Hundredths)
    requires Encodable(temp) && Encodable(water)
    ensures DecodeJson(BuildJson(temp, water)) == Some((temp, water))
  {
    FtoaAlphabet(temp);
    FtoaRoundTrip(temp);
    FtoaRoundTrip(water);
    DecodeJsonOfParts(Ftoa(temp), Ftoa(water), temp, water);
  }

  /** The dashboard's first reading: 22 degrees and a half-full tank. */
  lemma JsonExample()
    ensures BuildJson(Hundredths(false, 2200), Hundredths(false, 5000))
         == "{\"temperature\":22.00,\"water\":50.00}"
  {
    FtoaExample();
  }
}
