/** Decimal digit strings: JavaScript's `String(n)` and Python's `str(n)` for integers, and
    the value a digit string denotes. */
module Decimal {
  predicate IsDigit(c: char) {
    '0' <= c <= '9'
  }

  predicate AllDigits(s: string) {
    forall k :: 0 <= k < |s| ==> IsDigit(s[k])
  }

  function DigitChar(d: nat): char
    requires d < 10
  {
    ('0' as int + d) as char
  }

  /** `String(n)` for a non-negative integer: its decimal digits, without leading zeros. */
  function DecimalString(n: nat): string
    decreases n
  {
    if n < 10 then [DigitChar(n)] else DecimalString(n / 10) + [DigitChar(n % 10)]
  }

  /** The number a string of decimal digits denotes. */
  function DecimalValue(s: string): nat
    requires AllDigits(s)
  {
    if s == [] then 0
    else 10 * DecimalValue(s[..|s| - 1]) + (s[|s| - 1] as int - '0' as int)
  }

  /** `String(n)` is a digit string that denotes `n`, two characters at most below 100. */
  lemma {:induction false} DecimalStringRoundTrip(n: nat)
    ensures AllDigits(DecimalString(n)) && DecimalValue(DecimalString(n)) == n
    ensures 1 <= |DecimalString(n)| && (n < 100 ==> |DecimalString(n)| <= 2)
    decreases n
  {
    var s := DecimalString(n);
    if n >= 10 {
      DecimalStringRoundTrip(n / 10);
      assert s[..|s| - 1] == DecimalString(n / 10);
    }
  }

  /** A leading zero does not change the value of a digit string. */
  lemma {:induction false} LeadingZero(s: string)
    requires AllDigits(s)
    ensures AllDigits("0" + s) && DecimalValue("0" + s) == DecimalValue(s)
    decreases |s|
  {
    if s != [] {
      assert ("0" + s)[..|s|] == "0" + s[..|s| - 1];
      LeadingZero(s[..|s| - 1]);
    }
  }

  /** `str(n)` for any integer: a minus sign before the digits of a negative number. */
  function IntString(n: int): string {
    if n >= 0 then DecimalString(n) else "-" + DecimalString(-n)
  }
}
