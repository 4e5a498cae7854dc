/** Python's `str(n)` for integers, as used when an `int` is placed in an
    f-string, together with the parser that reads it back. */
module Decimal {

  predicate IsDigit(c: char) {
    '0' <= c <= '9'
  }

  predicate AllDigits(s: string) {
    forall k :: 0 <= k < |s| ==> IsDigit(s[k])
  }

  function DigitChar(d: nat): (c: char)
    requires d < 10
    ensures IsDigit(c) && c as int - '0' as int == d
  {
    (('0' as int) + d) as char
  }

  /** Decimal digits of `n`, most significant first, without leading zeros. */
  function NatToDecimal(n: nat): (s: string)
    decreases n
  {
    if n < 10 then [DigitChar(n)]
    else NatToDecimal(n / 10) + [DigitChar(n % 10)]
  }

  /** Python's `str(n)`: a minus sign before the digits of `|n|` when `n < 0`. */
  function IntToDecimal(n: int): string {
    if n < 0 then "-" + NatToDecimal(-n) else NatToDecimal(n)
  }

  /** The value of a string of decimal digits. */
  function DigitsValue(s: string): nat
    requires AllDigits(s)
    decreases |s|
  {
    if |s| == 0 then 0
    else 10 * DigitsValue(s[..|s| - 1]) + (s[|s| - 1] as int - '0' as int)
  }

  /** What Python's `int(s)` accepts of the strings `str` produces: an
      optional minus sign and at least one digit. */
  predicate IsDecimal(s: string) {
    if |s| > 0 && s[0] == '-' then |s| > 1 && AllDigits(s[1..])
    else |s| > 0 && AllDigits(s)
  }

  function ParseDecimal(s: string): int
    requires IsDecimal(s)
  {
    if s[0] == '-' then 0 - DigitsValue(s[1..]) else DigitsValue(s) as int
  }

  /** The digits of `n` are digits, start with a non-zero digit unless `n`
      is zero, and read back as `n`. */
  lemma {:induction false} NatToDecimalRoundTrip(n: nat)
    ensures var s := NatToDecimal(n);
      && |s| > 0
      && AllDigits(s)
      && (s[0] == '0' ==> n == 0)
      && DigitsValue(s) == n
    decreases n
  {
    var s := NatToDecimal(n);
    if n >= 10 {
      NatToDecimalRoundTrip(n / 10);
      var t := NatToDecimal(n / 10);
      assert s[..|s| - 1] == t;
      assert s[0] == t[0];
    }
  }

  /** `str` followed by `int` gives back the integer. */
  lemma IntToDecimalRoundTrip(n: int)
    ensures IsDecimal(IntToDecimal(n))
    ensures ParseDecimal(IntToDecimal(n)) == n
  {
    if n < 0 {
      NatToDecimalRoundTrip(-n);
      assert IntToDecimal(n)[1..] == NatToDecimal(-n);
    } else {
      NatToDecimalRoundTrip(n);
    }
  }

  /** Distinct integers are rendered as distinct strings. */
  lemma IntToDecimalInjective(m: int, n: int)
    requires IntToDecimal(m) == IntToDecimal(n)
    ensures m == n
  {
    IntToDecimalRoundTrip(m);
    IntToDecimalRoundTrip(n);
  }

  /** A rendered integer never contains the characters that delimit it in
      a conversation line. */
  lemma IntToDecimalCharacters(n: int)
    ensures forall k :: 0 <= k < |IntToDecimal(n)| ==>
      IntToDecimal(n)[k] == '-' || IsDigit(IntToDecimal(n)[k])
  {
    if n < 0 {
      NatToDecimalRoundTrip(-n);
      assert IntToDecimal(n) == "-" + NatToDecimal(-n);
    } else {
      NatToDecimalRoundTrip(n);
    }
  }
}
