/**
 * Two-decimal text of a sensor reading, as written by `http_ftoa`. The float
 * scaling `val * 100 + 0.5` and its truncating cast are replaced by their
 * result: the sign of `val` and the rounded count of hundredths.
 */
module FixedPoint {
  import opened Options
  import opened Decimal

  /**
   * A reading after scaling: `negative` is `val < 0` and `magnitude` is the
   * `fixed` count of hundredths computed from `|val|`.
   */
  datatype Hundredths = Hundredths(negative: bool, magnitude: nat)

  /** The whole part `fixed / 100` is stored in an `unsigned`, so it must fit 32 bits. */
  predicate Encodable(h: Hundredths) {
    h.magnitude / 100 < UnsignedLimit
  }

  /**
   * The text `http_ftoa` writes: a `-` exactly when the reading is negative,
   * the whole part in decimal, a point, and exactly two fraction digits.
   */
  function Ftoa(h: Hundredths): (s: seq<char>)
    requires Encodable(h)
    ensures |s| == (if h.negative then 1 else 0) + |Itoa(h.magnitude / 100)| + 3
    ensures (s[0] == '-') <==> h.negative
  {
    var whole := h.magnitude / 100;
    var frac := h.magnitude % 100;
    ItoaFitsScratch(whole);
    (if h.negative then "-" else "") + Itoa(whole) + "." + [DigitChar(frac / 10), DigitChar(frac % 10)]
  }

  /** The text is four to fourteen bytes long: a sign, one to ten whole digits, a point and two digits. */
  lemma FtoaLength(h: Hundredths)
    requires Encodable(h)
    ensures 4 <= |Ftoa(h)| <= 14
  {
    ItoaFitsScratch(h.magnitude / 100);
  }

  /** The text holds only a sign, digits and a point: no comma and no NUL. */
  lemma FtoaAlphabet(h: Hundredths)
    requires Encodable(h)
    ensures forall i :: 0 <= i < |Ftoa(h)| ==> Ftoa(h)[i] == '-' || Ftoa(h)[i] == '.' || IsDigit(Ftoa(h)[i])
  {
    var digits := Itoa(h.magnitude / 100);
    var sign: seq<char> := if h.negative then "-" else "";
    var frac := h.magnitude % 100;
    assert Ftoa(h) == sign + digits + "." + [DigitChar(frac / 10), DigitChar(frac % 10)];
  }

  /**
   * Reads two-decimal text back: an optional `-`, a canonical whole part, a
   * point and two digits. Anything else is rejected.
   */
  function DecodeFixed(s: seq<char>): Option<Hundredths> {
    if |s| >= 4 && s[|s| - 3] == '.' && IsDigit(s[|s| - 2]) && IsDigit(s[|s| - 1]) then
      var negative := s[0] == '-';
      var whole := if negative then s[1..|s| - 3] else s[..|s| - 3];
      if Canonical(whole) then
        Some(Hundredths(negative, Value(whole) * 100 + 10 * DigitValue(s[|s| - 2]) + DigitValue(s[|s| - 1])))
      else
        None
    else
      None
  }

  /** Decoding the text `http_ftoa` writes recovers the sign and the hundredths. */
  lemma FtoaRoundTrip(h: Hundredths)
    requires Encodable(h)
    ensures DecodeFixed(Ftoa(h)) == Some(h)
  {
    var s := Ftoa(h);
    var whole := h.magnitude / 100;
    var frac := h.magnitude % 100;
    var digits := Itoa(whole);
    var sign: seq<char> := if h.negative then "-" else "";
    assert s == sign + digits + "." + [DigitChar(frac / 10), DigitChar(frac % 10)];
    if h.negative {
      assert s[1..|s| - 3] == digits;
    } else {
      assert s[..|s| - 3] == digits;
    }
  }

  /**
   * Where the parts of the text sit: after the optional sign comes the whole
   * part `fixed / 100` in canonical decimal, then the point, then the two
   * digits of `fixed % 100`.
   */
  lemma FtoaDigits(h: Hundredths)
    requires Encodable(h)
    ensures var s := Ftoa(h); var k := if h.negative then 1 else 0;
      k + 4 <= |s| && s[|s| - 3] == '.' && Canonical(s[k..|s| - 3]) && IsDigit(s[|s| - 2]) && IsDigit(s[|s| - 1])
      && Value(s[k..|s| - 3]) == h.magnitude / 100
      && 10 * DigitValue(s[|s| - 2]) + DigitValue(s[|s| - 1]) == h.magnitude % 100
  {
    var s := Ftoa(h);
    var k := if h.negative then 1 else 0;
    FtoaRoundTrip(h);
    assert s[0] == '-' <==> h.negative;
    assert s[k..|s| - 3] == (if s[0] == '-' then s[1..|s| - 3] else s[..|s| - 3]);
    var w := Value(s[k..|s| - 3]);
    var r := 10 * DigitValue(s[|s| - 2]) + DigitValue(s[|s| - 1]);
    assert w * 100 + r == h.magnitude;
    DivModUnique(h.magnitude, w, r);
  }

  /** A number written as `w` hundreds plus a remainder below a hundred has quotient `w` and that remainder. */
  lemma DivModUnique(m: nat, w: nat, r: nat)
    requires r < 100 && w * 100 + r == m
    ensures m / 100 == w && m % 100 == r
  {
  }

  lemma HundredthsSplit(w: nat, d1: nat, d2: nat)
    requires d1 < 10 && d2 < 10
    ensures (w * 100 + 10 * d1 + d2) / 100 == w
    ensures (w * 100 + 10 * d1 + d2) % 100 / 10 == d1
    ensures (w * 100 + 10 * d1 + d2) % 100 % 10 == d2
  {
  }

  lemma FtoaOfParts(negative: bool, w: nat, d1: nat, d2: nat)
    requires d1 < 10 && d2 < 10 && w < UnsignedLimit
    ensures Encodable(Hundredths(negative, w * 100 + 10 * d1 + d2))
    ensures Ftoa(Hundredths(negative, w * 100 + 10 * d1 + d2))
         == (if negative then "-" else "") + Itoa(w) + "." + [DigitChar(d1), DigitChar(d2)]
  {
    HundredthsSplit(w, d1, d2);
    FtoaOfDigits(Hundredths(negative, w * 100 + 10 * d1 + d2), w, d1, d2);
  }

  /** The text for a magnitude whose whole part and two fraction digits are known. */
  lemma FtoaOfDigits(h: Hundredths, w: nat, d1: nat, d2: nat)
    requires h.magnitude / 100 == w && h.magnitude % 100 / 10 == d1 && h.magnitude % 100 % 10 == d2
    requires w < UnsignedLimit
    ensures Encodable(h)
    ensures Ftoa(h) == (if h.negative then "-" else "") + Itoa(w) + "." + [DigitChar(d1), DigitChar(d2)]
  {
  }

  /** The converse: every text `DecodeFixed` accepts, with a whole part that fits, is exactly what `http_ftoa` writes. */
  lemma DecodeFixedIsFtoa(s: seq<char>)
    requires DecodeFixed(s).Some? && Encodable(DecodeFixed(s).value)
    ensures Ftoa(DecodeFixed(s).value) == s
  {
    var negative := s[0] == '-';
    var whole := if negative then s[1..|s| - 3] else s[..|s| - 3];
    var d1 := DigitValue(s[|s| - 2]);
    var d2 := DigitValue(s[|s| - 1]);
    var w := Value(whole);
    assert DecodeFixed(s).value == Hundredths(negative, w * 100 + 10 * d1 + d2);
    HundredthsSplit(w, d1, d2);
    FtoaOfParts(negative, w, d1, d2);
    ItoaOfValue(whole);
    DigitCharOfValue(s[|s| - 2]);
    DigitCharOfValue(s[|s| - 1]);
    var k := if negative then 1 else 0;
    SplitFixedText(s, k);
    assert s[..k] == if negative then "-" else "";
  }

  lemma SplitFixedText(s: seq<char>, k: nat)
    requires k + 3 <= |s| && s[|s| - 3] == '.'
    ensures s == s[..k] + s[k..|s| - 3] + "." + [s[|s| - 2], s[|s| - 1]]
  {
  }

  /** Twenty-two degrees, one of the values the dashboard shows first. */
  lemma FtoaExample()
    ensures Ftoa(Hundredths(false, 2200)) == "22.00"
    ensures Ftoa(Hundredths(false, 5000)) == "50.00"
    ensures Ftoa(Hundredths(true, 5)) == "-0.05"
  {
    assert Itoa(22) == "22" by { assert Itoa(22) == Itoa(2) + ['2']; }
    assert Itoa(50) == "50" by { assert Itoa(50) == Itoa(5) + ['0']; }
    FtoaOfDigits(Hundredths(false, 2200), 22, 0, 0);
    FtoaOfDigits(Hundredths(false, 5000), 50, 0, 0);
    FtoaOfDigits(Hundredths(true, 5), 0, 0, 5);
  }
}
