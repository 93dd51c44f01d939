/** Decimal rendering of whole numbers, and that it can be read back. */
module Decimals {

  predicate IsDigit(c: char) { '0' <= c <= '9' }

  function Digit(d: nat): char
    requires d < 10
  {
    "0123456789"[d]
  }

  function Decimal(n: nat): string {
    if n < 10 then [Digit(n)] else Decimal(n / 10) + [Digit(n % 10)]
  }

  lemma {:induction false} DecimalDigits(n: nat)
    ensures |Decimal(n)| > 0
    ensures forall i :: 0 <= i < |Decimal(n)| ==> IsDigit(Decimal(n)[i])
  {
    if n >= 10 { DecimalDigits(n / 10); }
  }

  lemma DecimalLast(n: nat)
    ensures Decimal(n) != "" && Decimal(n)[|Decimal(n)| - 1] == Digit(n % 10)
    ensures Decimal(n)[..|Decimal(n)| - 1] == if n < 10 then "" else Decimal(n / 10)
  {
  }

  lemma {:induction false} DecimalInjective(a: nat, b: nat)
    requires Decimal(a) == Decimal(b)
    ensures a == b
  {
    DecimalLast(a);
    DecimalLast(b);
    DecimalDigits(a / 10);
    DecimalDigits(b / 10);
    assert a % 10 == b % 10;
    if a >= 10 { DecimalInjective(a / 10, b / 10); }
  }
}
