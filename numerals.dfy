/**
 * Decimal numerals: `std::to_string` of an `int`, and the value of a run of
 * decimal digits as `operator>>` accumulates it.
 */
module Numerals {

  /** The range of the source's 32-bit `int`. */
  predicate IsInt32(x: int)
  {
    -0x8000_0000 <= x < 0x8000_0000
  }

  predicate IsDigit(c: char)
  {
    '0' <= c <= '9'
  }

  predicate AllDigits(s: string)
  {
    forall k :: 0 <= k < |s| ==> IsDigit(s[k])
  }

  function DigitValue(c: char): (d: nat)
    requires IsDigit(c)
    ensures d < 10
  {
    c as int - '0' as int
  }

  function DigitChar(d: nat): (c: char)
    requires d < 10
    ensures IsDigit(c) && DigitValue(c) == d
  {
    ('0' as int + d) as char
  }

  /** The value of a run of decimal digits, most significant first. */
  function DigitsValue(ds: string): nat
    requires AllDigits(ds)
  {
    if ds == [] then 0 else DigitsValue(ds[..|ds| - 1]) * 10 + DigitValue(ds[|ds| - 1])
  }

  /** The decimal numeral of `n`: at least one digit and no leading zero. */
  function NatToString(n: nat): (s: string)
    ensures |s| >= 1 && AllDigits(s)
    ensures |s| > 1 ==> s[0] != '0'
  {
    if n < 10 then [DigitChar(n)] else NatToString(n / 10) + [DigitChar(n % 10)]
  }

  /** `std::to_string(int)`: a minus sign for negative values, then the numeral of the magnitude. */
  function IntToString(x: int): (s: string)
    ensures |s| >= 1
    ensures x < 0 ==> s[0] == '-' && s[1..] == NatToString(-x)
    ensures x >= 0 ==> s == NatToString(x)
  {
    if x < 0 then "-" + NatToString(-x) else NatToString(x)
  }

  /** Reading back a numeral gives the number it was written from. */
  lemma {:induction false} DigitsValueOfNatToString(n: nat)
    ensures DigitsValue(NatToString(n)) == n
  {
    var s := NatToString(n);
    if n >= 10 {
      DigitsValueOfNatToString(n / 10);
      assert s[..|s| - 1] == NatToString(n / 10);
    }
  }

  /** A numeral is made of digits and at most a leading minus sign, so it holds no comma and no whitespace. */
  lemma IntToStringChars(x: int)
    ensures forall k :: 0 <= k < |IntToString(x)| ==> IsDigit(IntToString(x)[k]) || (k == 0 && IntToString(x)[k] == '-')
  {
  }
}
