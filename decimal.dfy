/** Decimal rendering of natural numbers, as Python's `str(i)` and the
    format specifications `{i:02}` / `{i:03}` produce them for i >= 0, and
    the inverse reading of a digit string. */
module Decimal {

  predicate IsDigit(c: char) {
    '0' <= c <= '9'
  }

  predicate AllDigits(s: string) {
    forall i :: 0 <= i < |s| ==> IsDigit(s[i])
  }

  function DigitChar(d: nat): (c: char)
    requires d < 10
    ensures IsDigit(c)
  {
    ('0' as int + d) as char
  }

  function DigitValue(c: char): (d: nat)
    requires IsDigit(c)
    ensures d < 10 && DigitChar(d) == c
  {
    c as int - '0' as int
  }

  function Max(a: nat, b: nat): (r: nat) {
    if a < b then b else a
  }

  function Pow10(k: nat): (p: nat)
    ensures p >= 1
  {
    if k == 0 then 1 else 10 * Pow10(k - 1)
  }

  /** The shortest decimal numeral of `n`: what `str(n)` gives. */
  function NatToString(n: nat): (s: string)
    ensures |s| >= 1 && AllDigits(s)
    ensures n > 0 ==> s[0] != '0'
    decreases n
  {
    if n < 10 then [DigitChar(n)] else NatToString(n / 10) + [DigitChar(n % 10)]
  }

  /** The value of a digit string, leading zeros allowed: what `int(s)` gives for a
      non-empty digit string. */
  function ParseDecimal(s: string): (r: nat)
    requires AllDigits(s)
    decreases |s|
  {
    if |s| == 0 then 0 else 10 * ParseDecimal(s[..|s| - 1]) + DigitValue(s[|s| - 1])
  }

  function Zeros(k: nat): (z: string)
    ensures |z| == k && forall i :: 0 <= i < k ==> z[i] == '0'
  {
    seq(k, _ => '0')
  }

  /** `n` rendered with `{n:0w}`: zero-filled on the left to at least
      `width` characters, never cut down when the numeral is longer. */
  function ZeroPad(n: nat, width: nat): (s: string)
    ensures |s| == Max(width, |NatToString(n)|)
    ensures AllDigits(s)
  {
    var d := NatToString(n);
    if |d| < width then Zeros(width - |d|) + d else d
  }

  /** Reading back the numeral gives the number. */
  lemma {:induction false} ParseNatToString(n: nat)
    ensures ParseDecimal(NatToString(n)) == n
    decreases n
  {
    if n >= 10 {
      var s := NatToString(n);
      assert s[..|s| - 1] == NatToString(n / 10);
      ParseNatToString(n / 10);
    }
  }

  /** Leading zeros do not change the value of a digit string. */
  lemma {:induction false} ParseLeadingZeros(k: nat, s: string)
    requires AllDigits(s)
    ensures AllDigits(Zeros(k) + s)
    ensures ParseDecimal(Zeros(k) + s) == ParseDecimal(s)
    decreases |s|, k
  {
    var z := Zeros(k) + s;
    assert AllDigits(z);
    if |s| == 0 {
      if k > 0 {
        assert z[..|z| - 1] == Zeros(k - 1) + s;
        ParseLeadingZeros(k - 1, s);
      } else {
        assert z == s;
      }
    } else {
      assert z[..|z| - 1] == Zeros(k) + s[..|s| - 1];
      ParseLeadingZeros(k, s[..|s| - 1]);
    }
  }

  /** The zero-padded rendering is an exact inverse of reading a number. */
  lemma ParseZeroPad(n: nat, width: nat)
    ensures ParseDecimal(ZeroPad(n, width)) == n
  {
    var d := NatToString(n);
    ZeroPadParts(n, width);
    ParseNatToString(n);
    ParseLeadingZeros(Max(width, |d|) - |d|, d);
  }

  /** `{n:0w}` is a run of zeros followed by the plain numeral. */
  lemma ZeroPadParts(n: nat, width: nat)
    ensures ZeroPad(n, width) == Zeros(Max(width, |NatToString(n)|) - |NatToString(n)|) + NatToString(n)
  {
    var d := NatToString(n);
    if |d| >= width {
      assert Zeros(0) + d == d;
    }
  }

  /** A numeral has at most k digits exactly when the number is below 10^k. */
  lemma {:induction false} NatToStringLength(n: nat, k: nat)
    requires k >= 1
    ensures |NatToString(n)| <= k <==> n < Pow10(k)
    decreases n
  {
    if n < 10 {
      Pow10AtLeastTen(k);
    } else if k == 1 {
      assert |NatToString(n)| == |NatToString(n / 10)| + 1;
    } else {
      NatToStringLength(n / 10, k - 1);
    }
  }

  lemma Pow10AtLeastTen(k: nat)
    requires k >= 1
    ensures Pow10(k) >= 10
  {
    if k > 1 {
      Pow10AtLeastTen(k - 1);
    }
  }

  /** `{n:0w}` is exactly w characters wide when n has at most w digits,
      and is the plain numeral (wider than w) otherwise. */
  lemma ZeroPadWidth(n: nat, width: nat)
    requires width >= 1
    ensures n < Pow10(width) ==> |ZeroPad(n, width)| == width
    ensures n >= Pow10(width) ==> ZeroPad(n, width) == NatToString(n) && |ZeroPad(n, width)| > width
  {
    NatToStringLength(n, width);
  }
}
