/** Decimal notation of the natural numbers, as `String(i)` and `{}` print it. */
module Decimal {
  function Digit(d: nat): (c: char)
    requires d < 10
    ensures '0' <= c <= '9'
  {
    '0' + d as char
  }

  function DigitValue(c: char): (d: nat)
    requires '0' <= c <= '9'
    ensures d < 10 && Digit(d) == c
  {
    (c - '0') as nat
  }

  function ToDecimal(n: nat): (s: string)
    ensures s != []
  {
    if n < 10 then [Digit(n)] else ToDecimal(n / 10) + [Digit(n % 10)]
  }

  predicate IsDigits(s: string) {
    forall i :: 0 <= i < |s| ==> '0' <= s[i] <= '9'
  }

  /** The number a string of digits stands for; leading zeros are allowed. */
  function FromDecimal(s: string): nat
    requires IsDigits(s)
  {
    if s == [] then 0 else 10 * FromDecimal(s[..|s| - 1]) + DigitValue(s[|s| - 1])
  }

  lemma {:induction false} DecimalIsDigits(n: nat)
    ensures IsDigits(ToDecimal(n))
  {
    if n >= 10 {
      DecimalIsDigits(n / 10);
    }
  }

  /** No zero in front, except for zero itself. */
  lemma {:induction false} NoLeadingZero(n: nat)
    ensures ToDecimal(n)[0] == '0' ==> n == 0 && |ToDecimal(n)| == 1
  {
    if n >= 10 {
      NoLeadingZero(n / 10);
    }
  }

  lemma {:induction false} DecimalRoundTrip(n: nat)
    ensures IsDigits(ToDecimal(n)) && FromDecimal(ToDecimal(n)) == n
  {
    DecimalIsDigits(n);
    if n >= 10 {
      DecimalRoundTrip(n / 10);
      assert ToDecimal(n)[..|ToDecimal(n)| - 1] == ToDecimal(n / 10);
    }
  }
}
