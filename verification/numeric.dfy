/** Machine integers of the .NET runtime and decimal digit strings. */
module Numeric {

  const MinInt32: int := -0x8000_0000
  const MaxInt32: int := 0x7FFF_FFFF
  const MinInt64: int := -0x8000_0000_0000_0000
  const MaxInt64: int := 0x7FFF_FFFF_FFFF_FFFF

  /** System.Int32 */
  newtype int32 = x: int | -0x8000_0000 <= x < 0x8000_0000
  /** System.Int64 */
  newtype int64 = x: int | -0x8000_0000_0000_0000 <= x < 0x8000_0000_0000_0000
  /** System.Byte */
  newtype byte = x: int | 0 <= x < 256

  predicate InInt32(x: int) {
    MinInt32 <= x <= MaxInt32
  }

  predicate InInt64(x: int) {
    MinInt64 <= x <= MaxInt64
  }

  function Abs(x: int): nat {
    if x < 0 then -x else x
  }

  /** C#'s `/` on integers, which truncates toward zero (Dafny's `/` is Euclidean). */
  function TruncDiv(a: int, b: int): (q: int)
    requires b > 0
    ensures a >= 0 ==> 0 <= q * b <= a < q * b + b
    ensures a < 0 ==> q * b - b < a <= q * b <= 0
  {
    if a >= 0 then
      DivBounds(a, b);
      a / b
    else
      DivBounds(-a, b);
      -((-a) / b)
  }

  /** Euclidean division of a natural number: the quotient times the divisor is within one divisor below it. */
  lemma {:induction false} DivBounds(n: nat, b: int)
    requires b > 0
    ensures 0 <= (n / b) * b <= n < (n / b) * b + b
    ensures (-(n / b)) * b == -((n / b) * b)
  {
    assert n == (n / b) * b + n % b && 0 <= n % b < b;
  }

  function Pow10(k: nat): (p: nat)
    ensures p >= 1
  {
    if k == 0 then 1 else 10 * Pow10(k - 1)
  }

  // ---- decimal digit strings ----

  predicate IsDigit(c: char) {
    '0' <= c <= '9'
  }

  predicate AllDigits(s: string) {
    forall i :: 0 <= i < |s| ==> IsDigit(s[i])
  }

  function DigitChar(d: nat): (c: char)
    requires d < 10
    ensures IsDigit(c)
  {
    (48 + d) as char
  }

  function DigitValue(c: char): (d: nat)
    requires IsDigit(c)
    ensures d < 10
  {
    c as int - 48
  }

  /** The value a string of decimal digits denotes, most significant digit first. */
  function DigitsValue(s: string): nat
    requires AllDigits(s)
  {
    if s == [] then 0 else DigitsValue(s[..|s| - 1]) * 10 + DigitValue(s[|s| - 1])
  }

  /** The shortest decimal rendering of n, as Int64.ToString writes a non-negative value. */
  function Digits(n: nat): (s: string)
    ensures |s| > 0 && AllDigits(s)
  {
    if n < 10 then [DigitChar(n)] else Digits(n / 10) + [DigitChar(n % 10)]
  }

  /** The rendering of an integer of either sign, with a leading '-' when negative. */
  function IntText(i: int): string {
    if i < 0 then "-" + Digits(-i) else Digits(i)
  }

  /** Exactly k decimal digits of f, zero-padded on the left. */
  function Fixed(f: nat, k: nat): (s: string)
    ensures |s| == k && AllDigits(s)
  {
    if k == 0 then [] else Fixed(f / 10, k - 1) + [DigitChar(f % 10)]
  }

  /** Drops trailing '0' characters. */
  function TrimZeros(s: string): (t: string)
    ensures |t| <= |s| && t == s[..|t|]
  {
    if s != [] && s[|s| - 1] == '0' then TrimZeros(s[..|s| - 1]) else s
  }

  lemma {:induction false} DigitRoundTrip(d: nat)
    requires d < 10
    ensures DigitValue(DigitChar(d)) == d
  {
  }

  lemma {:induction false} DigitsRoundTrip(n: nat)
    ensures DigitsValue(Digits(n)) == n
  {
    var s := Digits(n);
    if n >= 10 {
      DigitsRoundTrip(n / 10);
      assert s[..|s| - 1] == Digits(n / 10);
    }
  }

  lemma {:induction false} FixedRoundTrip(f: nat, k: nat)
    requires f < Pow10(k)
    ensures DigitsValue(Fixed(f, k)) == f
  {
    var s := Fixed(f, k);
    if k > 0 {
      FixedRoundTrip(f / 10, k - 1);
      assert s[..|s| - 1] == Fixed(f / 10, k - 1);
    }
  }

  lemma {:induction false} TimesTen(a: nat, x: nat)
    ensures a * (10 * x) == (a * x) * 10
  {
  }

  /** Dropping trailing zeros divides the denoted value by the matching power of ten. */
  lemma {:induction false} TrimZerosValue(s: string)
    requires AllDigits(s)
    ensures AllDigits(TrimZeros(s))
    ensures DigitsValue(TrimZeros(s)) * Pow10(|s| - |TrimZeros(s)|) == DigitsValue(s)
  {
    if s != [] && s[|s| - 1] == '0' {
      var p := s[..|s| - 1];
      TrimZerosValue(p);
      var t := TrimZeros(p);
      var k := |p| - |t|;
      assert TrimZeros(s) == t && |s| - |t| == k + 1;
      assert DigitsValue(s) == DigitsValue(p) * 10;
      TimesTen(DigitsValue(t), Pow10(k));
    }
  }
}
