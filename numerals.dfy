/**
 * How JavaScript turns a number into text (`${number}` and `toFixed(3)`),
 * for exact reals.  Integers render exactly as in JavaScript; other values
 * render as their decimal expansion.
 */
module Numerals {

  predicate IsDigit(c: char) {
    '0' <= c <= '9'
  }

  predicate IsDigits(s: string) {
    forall i :: 0 <= i < |s| ==> IsDigit(s[i])
  }

  function DigitChar(d: nat): (c: char)
    requires d < 10
    ensures IsDigit(c) && c as int - '0' as int == d
  {
    ('0' as int + d) as char
  }

  /** The decimal digits of a natural number, most significant first. */
  function NatText(n: nat): (s: string)
    ensures |s| >= 1 && IsDigits(s)
    ensures s[0] == '0' ==> n == 0
  {
    if n < 10 then [DigitChar(n)] else NatText(n / 10) + [DigitChar(n % 10)]
  }

  /** The number a string of decimal digits denotes. */
  function ParseNat(s: string): nat
    requires IsDigits(s)
  {
    if |s| == 0 then 0 else ParseNat(s[..|s| - 1]) * 10 + (s[|s| - 1] as int - '0' as int)
  }

  /** Reading the digits of n back gives n. */
  lemma {:induction false} NatTextRoundTrip(n: nat)
    ensures ParseNat(NatText(n)) == n
  {
    if n >= 10 {
      var s := NatText(n);
      assert s[..|s| - 1] == NatText(n / 10);
      NatTextRoundTrip(n / 10);
    }
  }

  /** `${i}` for an integer. */
  function IntText(i: int): (s: string)
    ensures i >= 0 ==> s == NatText(i)
    ensures i < 0 ==> s == "-" + NatText(-i)
  {
    if i < 0 then "-" + NatText(-i) else NatText(i)
  }

  /** At most this many fractional digits are written. */
  const FractionDigitsLimit: nat := 20

  /** The digits after the point of a fraction in [0, 1), stopping when it is used up. */
  function FractionDigits(f: real, fuel: nat): (s: string)
    requires 0.0 <= f < 1.0
    ensures IsDigits(s) && |s| <= fuel
    decreases fuel
  {
    if fuel == 0 || f == 0.0 then ""
    else
      var d := (f * 10.0).Floor;
      var rest := f * 10.0 - d as real;
      [DigitChar(d)] + FractionDigits(rest, fuel - 1)
  }

  function UnsignedText(x: real): (s: string)
    requires x >= 0.0
  {
    var whole := x.Floor;
    var f := x - whole as real;
    NatText(whole) + (if f == 0.0 then "" else "." + FractionDigits(f, FractionDigitsLimit))
  }

  /** `${x}`: the text of a number. */
  function NumberText(x: real): string {
    if x < 0.0 then "-" + UnsignedText(-x) else UnsignedText(x)
  }

  /** A whole number renders as its integer digits, with no point. */
  lemma NumberTextOfInteger(i: int)
    ensures NumberText(i as real) == IntText(i)
  {
    if i < 0 {
      assert (-(i as real)).Floor == -i;
    } else {
      assert (i as real).Floor == i;
    }
  }

  /** Three digits, with leading zeros, of a number below 1000. */
  function Pad3(k: nat): (s: string)
    requires k < 1000
    ensures |s| == 3 && IsDigits(s)
  {
    [DigitChar(k / 100), DigitChar(k / 10 % 10), DigitChar(k % 10)]
  }

  /** The number of thousandths `toFixed(3)` writes for a non-negative x: halves round up. */
  function Thousandths(x: real): (n: nat)
    requires x >= 0.0
    ensures x - 0.0005 < n as real / 1000.0 <= x + 0.0005
  {
    (x * 1000.0 + 0.5).Floor
  }

  /** `x.toFixed(3)`: the sign, the integer part, a point and exactly three digits. */
  function Fixed3(x: real): string {
    if x < 0.0 then "-" + UnsignedFixed3(-x) else UnsignedFixed3(x)
  }

  function UnsignedFixed3(x: real): string
    requires x >= 0.0
  {
    var n := Thousandths(x);
    NatText(n / 1000) + "." + Pad3(n % 1000)
  }

  lemma DigitsAppend(a: string, b: string)
    requires IsDigits(a) && IsDigits(b)
    ensures IsDigits(a + b)
  {
    forall i | 0 <= i < |a + b| ensures IsDigit((a + b)[i]) {
      if i < |a| { assert (a + b)[i] == a[i]; } else { assert (a + b)[i] == b[i - |a|]; }
    }
  }

  lemma ShiftDigit(pa: int, p': int, pb': int, d: int)
    ensures (pa * p' + pb') * 10 + d == pa * (10 * p') + (pb' * 10 + d)
  {}

  /** The digits of ParseNat(a + b) are those of a shifted past those of b. */
  lemma {:induction false} ParseNatAppend(a: string, b: string)
    requires IsDigits(a) && IsDigits(b)
    ensures IsDigits(a + b)
    ensures ParseNat(a + b) == ParseNat(a) * Pow10Nat(|b|) + ParseNat(b)
    decreases |b|
  {
    DigitsAppend(a, b);
    if |b| > 0 {
      var b' := b[..|b| - 1];
      assert (a + b)[..|a + b| - 1] == a + b';
      assert (a + b)[|a + b| - 1] == b[|b| - 1];
      ParseNatAppend(a, b');
      ShiftDigit(ParseNat(a), Pow10Nat(|b'|), ParseNat(b'), b[|b| - 1] as int - '0' as int);
    } else {
      assert a + b == a;
    }
  }

  function Pow10Nat(k: nat): (p: nat)
    ensures p >= 1
  {
    if k == 0 then 1 else 10 * Pow10Nat(k - 1)
  }

  /** The digits `toFixed(3)` writes, point removed, spell out the thousandths of x. */
  lemma Fixed3Denotes(x: real)
    requires x >= 0.0
    ensures var n := Thousandths(x);
      Fixed3(x) == NatText(n / 1000) + "." + Pad3(n % 1000) &&
      ParseNat(NatText(n / 1000) + Pad3(n % 1000)) == n
  {
    var n := Thousandths(x);
    var k := n % 1000;
    NatTextRoundTrip(n / 1000);
    ParseNatAppend(NatText(n / 1000), Pad3(k));
    var p := Pad3(k);
    assert p[..2][..1] == [DigitChar(k / 100)];
    assert p[..2][..1][..0] == [];
    assert ParseNat(p[..2][..1]) == k / 100;
    assert p[..2][1] == DigitChar(k / 10 % 10);
    assert ParseNat(p[..2]) == (k / 100) * 10 + k / 10 % 10;
    assert ParseNat(p) == k;
    assert Pow10Nat(3) == 1000;
  }
}
