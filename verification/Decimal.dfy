/** Decimal notation of natural numbers, as `std::to_string` writes and `operator>>` reads it. */
module Decimal {

  predicate IsDigit(c: char) {
    '0' <= c <= '9'
  }

  predicate AllDigits(s: string) {
    forall k :: 0 <= k < |s| ==> IsDigit(s[k])
  }

  function Digit(d: nat): (c: char)
    requires d < 10
    ensures IsDigit(c) && DigitValue(c) == d
  {
    ('0' as int + d) as char
  }

  function DigitValue(c: char): (d: nat)
    requires IsDigit(c)
    ensures d < 10
  {
    c as int - '0' as int
  }

  function ToString(n: nat): string {
    if n < 10 then [Digit(n)] else ToString(n / 10) + [Digit(n % 10)]
  }

  function Value(s: string): nat
    requires AllDigits(s)
  {
    if s == "" then 0
    else 10 * Value(s[..|s| - 1]) + DigitValue(s[|s| - 1])
  }

  lemma {:induction false} RoundTrip(n: nat)
    ensures AllDigits(ToString(n)) && ToString(n) != "" && Value(ToString(n)) == n
  {
    if n < 10 {
      var s := [Digit(n)];
      assert s[..|s| - 1] == "";
    } else {
      RoundTrip(n / 10);
      var s := ToString(n / 10) + [Digit(n % 10)];
      assert s[..|s| - 1] == ToString(n / 10);
    }
  }

  lemma ToStringStep(n: nat, d: nat)
    requires n > 0 && d < 10
    ensures ToString(10 * n + d) == ToString(n) + [Digit(d)]
  {
    assert (10 * n + d) / 10 == n && (10 * n + d) % 10 == d;
  }

  /** Text without a superfluous leading zero is the decimal text of its value, and all decimal text is
      such. */
  lemma {:induction false} Canonical(s: string)
    requires s != "" && AllDigits(s) && (|s| > 1 ==> s[0] != '0')
    ensures ToString(Value(s)) == s
    ensures |s| > 1 ==> Value(s) >= 10
  {
    var n := |s| - 1;
    if n > 0 {
      var front := s[..n];
      Canonical(front);
      assert n == 1 ==> Value(front) == DigitValue(front[0]);
      ToStringStep(Value(front), DigitValue(s[n]));
      assert s == front + [s[n]];
    }
  }

  lemma {:induction false} NoLeadingZero(n: nat)
    ensures n > 0 ==> ToString(n)[0] != '0'
  {
    if n >= 10 {
      NoLeadingZero(n / 10);
    }
  }
}
