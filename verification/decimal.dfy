/**
 * Unsigned decimal text, as written by `http_itoa`: the digits of a 32-bit
 * `unsigned`, most significant first, with no leading zeros.
 */
module Decimal {

  /** One more than the largest value of a 32-bit `unsigned`. */
  const UnsignedLimit: nat := 0x1_0000_0000

  /** Capacity of the digit scratch buffer `tmp` in `http_itoa`. */
  const ScratchSize: nat := 10

  predicate IsDigit(c: char) {
    '0' <= c <= '9'
  }

  predicate AllDigits(s: seq<char>) {
    forall i :: 0 <= i < |s| ==> IsDigit(s[i])
  }

  function DigitValue(c: char): (d: nat)
    requires IsDigit(c)
    ensures d < 10
  {
    c as int - '0' as int
  }

  /** The character `'0' + d`. */
  function DigitChar(d: nat): (c: char)
    requires d < 10
    ensures IsDigit(c) && DigitValue(c) == d
  {
    ('0' as int + d) as char
  }

  lemma DigitCharOfValue(c: char)
    requires IsDigit(c)
    ensures DigitChar(DigitValue(c)) == c
  {
  }

  /** The number a string of decimal digits denotes, read most significant first. */
  function Value(s: seq<char>): nat
    requires AllDigits(s)
  {
    if s == [] then 0 else 10 * Value(s[..|s| - 1]) + DigitValue(s[|s| - 1])
  }

  /** The shape of a number written without leading zeros: non-empty, and `"0"` is the only text starting with `0`. */
  predicate Canonical(s: seq<char>) {
    |s| >= 1 && AllDigits(s) && (s[0] == '0' ==> |s| == 1)
  }

  function Pow10(k: nat): (p: nat)
    ensures p >= 1
  {
    if k == 0 then 1 else 10 * Pow10(k - 1)
  }

  /**
   * The digits `http_itoa` writes for `val`. Reading them back yields `val`
   * and they carry no leading zero; `Itoa(0)` is exactly `"0"`.
   */
  function Itoa(val: nat): (s: seq<char>)
    ensures Canonical(s)
    ensures Value(s) == val
  {
    if val < 10 then
      [DigitChar(val)]
    else
      var prefix := Itoa(val / 10);
      assert (prefix + [DigitChar(val % 10)])[..|prefix|] == prefix;
      prefix + [DigitChar(val % 10)]
  }

  lemma ItoaZero()
    ensures Itoa(0) == "0"
  {
  }

  /** A value of zero is written only with zero digits. */
  lemma {:induction false} ValueZeroMeansAllZero(s: seq<char>)
    requires AllDigits(s) && Value(s) == 0
    ensures forall i :: 0 <= i < |s| ==> s[i] == '0'
  {
    if s != [] {
      var p := s[..|s| - 1];
      assert AllDigits(p);
      ValueZeroMeansAllZero(p);
      forall i | 0 <= i < |s|
        ensures s[i] == '0'
      {
        if i < |s| - 1 {
          assert s[i] == p[i];
        }
      }
    }
  }

  /** The converse round trip: every canonical digit string is what `Itoa` writes for its value. */
  lemma {:induction false} ItoaOfValue(s: seq<char>)
    requires Canonical(s)
    ensures Itoa(Value(s)) == s
  {
    if |s| == 1 {
      DigitCharOfValue(s[0]);
    } else {
      var p := s[..|s| - 1];
      var d := DigitValue(s[|s| - 1]);
      assert p[0] == s[0];
      assert Canonical(p);
      if Value(p) == 0 {
        ValueZeroMeansAllZero(p);
        assert false;
      }
      var v := Value(s);
      assert v == 10 * Value(p) + d;
      assert v >= 10;
      assert v / 10 == Value(p) && v % 10 == d;
      ItoaOfValue(p);
      DigitCharOfValue(s[|s| - 1]);
      assert s == p + [s[|s| - 1]];
    }
  }

  /** The number of digits of `val` is at most `k` exactly when `val < 10^k`. */
  lemma {:induction false} ItoaLength(val: nat, k: nat)
    requires k >= 1
    ensures |Itoa(val)| <= k <==> val < Pow10(k)
    decreases val
  {
    if val < 10 {
      Pow10AtLeastTen(k);
    } else if k == 1 {
      assert |Itoa(val)| == |Itoa(val / 10)| + 1;
    } else {
      assert |Itoa(val)| == |Itoa(val / 10)| + 1;
      ItoaLength(val / 10, k - 1);
      DivTenBelow(val, Pow10(k - 1));
    }
  }

  lemma {:induction false} Pow10AtLeastTen(k: nat)
    requires k >= 1
    ensures Pow10(k) >= 10
  {
    if k > 1 {
      Pow10AtLeastTen(k - 1);
    }
  }

  lemma DivTenBelow(val: nat, p: nat)
    ensures val / 10 < p <==> val < 10 * p
  {
  }

  /** Every 32-bit `unsigned` needs between one and ten digits, so the ten-byte scratch buffer suffices. */
  lemma ItoaFitsScratch(val: nat)
    requires val < UnsignedLimit
    ensures 1 <= |Itoa(val)| <= ScratchSize
  {
    assert Pow10(10) == 10000000000;
    ItoaLength(val, 10);
  }

  function Reversed(s: seq<char>): (r: seq<char>)
    ensures |r| == |s|
  {
    if s == [] then [] else [s[|s| - 1]] + Reversed(s[..|s| - 1])
  }

  /** The digits not yet extracted from the remaining value `v` (none once `v` is zero). */
  function Pending(v: nat): seq<char> {
    if v == 0 then [] else Itoa(v)
  }

  lemma PendingStep(v: nat)
    requires v > 0
    ensures Pending(v) == Pending(v / 10) + [DigitChar(v % 10)]
  {
  }

  lemma ReversedSnoc(s: seq<char>, c: char)
    ensures Reversed(s + [c]) == [c] + Reversed(s)
  {
    assert (s + [c])[..|s|] == s;
  }

  /** Moving the last pending digit `d` to the scratch text keeps the pending digits followed by the reversed scratch text. */
  lemma MoveDigit(x: seq<char>, rest: seq<char>, d: char, tmp: seq<char>)
    requires x == rest + [d] + Reversed(tmp)
    ensures x == rest + Reversed(tmp + [d])
  {
    ReversedSnoc(tmp, d);
    assert rest + [d] + Reversed(tmp) == rest + ([d] + Reversed(tmp));
  }

  /** Extracting the lowest digit of `v` moves it from the pending digits to the end of the reversed scratch text. */
  lemma ExtractStep(val: nat, v: nat, tmp: seq<char>)
    requires v > 0 && Itoa(val) == Pending(v) + Reversed(tmp)
    ensures Itoa(val) == Pending(v / 10) + Reversed(tmp + [DigitChar(v % 10)])
    ensures |Pending(v / 10)| + |tmp + [DigitChar(v % 10)]| == |Pending(v)| + |tmp|
  {
    PendingStep(v);
    MoveDigit(Itoa(val), Pending(v / 10), DigitChar(v % 10), tmp);
  }

  /** The first, unconditional pass of the do-while: zero still yields its one digit. */
  lemma ExtractFirst(val: nat)
    ensures Itoa(val) == Pending(val / 10) + Reversed([DigitChar(val % 10)])
    ensures |Pending(val / 10)| + 1 == |Itoa(val)|
  {
    assert Reversed([DigitChar(val % 10)]) == [DigitChar(val % 10)];
    if val > 0 {
      PendingStep(val);
    }
  }

  /**
   * The first loop of `http_itoa`: a do-while that extracts digits least
   * significant first into the ten-byte scratch buffer, so zero yields one
   * digit. Returns the filled part of the buffer; the bound on its length is
   * the proof that `tmp[i++]` never writes past `tmp[9]`.
   */
  method ExtractDigits(val: nat) returns (tmp: seq<char>)
    requires val < UnsignedLimit
    ensures 1 <= |tmp| <= ScratchSize
    ensures Reversed(tmp) == Itoa(val)
  {
    ItoaFitsScratch(val);
    ExtractFirst(val);
    tmp := [DigitChar(val % 10)];
    var v: nat := val / 10;
    while v != 0
      invariant 1 <= |tmp|
      invariant Itoa(val) == Pending(v) + Reversed(tmp)
      invariant |Pending(v)| + |tmp| == |Itoa(val)|
    {
      ExtractStep(val, v, tmp);
      tmp := tmp + [DigitChar(v % 10)];
      v := v / 10;
    }
  }

  lemma {:induction false} ReversedAt(s: seq<char>, k: nat)
    requires k < |s|
    ensures Reversed(s)[k] == s[|s| - 1 - k]
  {
    if k > 0 {
      ReversedAt(s[..|s| - 1], k - 1);
    }
  }

  /**
   * The algorithm of `http_itoa`: extract the digits into the scratch buffer,
   * then copy them out in reverse. Returns the written text and its length.
   */
  method WriteDecimal(val: nat) returns (dst: seq<char>, len: int)
    requires val < UnsignedLimit
    ensures dst == Itoa(val)
    ensures len == |dst| && 1 <= len <= ScratchSize
  {
    var tmp := ExtractDigits(val);
    len := |tmp|;
    dst := [];
    var i := |tmp|;
    while i > 0
      invariant 0 <= i <= |tmp|
      invariant |dst| == |tmp| - i
      invariant forall k :: 0 <= k < |dst| ==> dst[k] == tmp[|tmp| - 1 - k]
      decreases i
    {
      i := i - 1;
      dst := dst + [tmp[i]];
    }
    forall k | 0 <= k < |dst|
      ensures dst[k] == Reversed(tmp)[k]
    {
      ReversedAt(tmp, k);
    }
  }
}
