/**
 Bookkeeping shared by the rate limiters: a sequence of calls, what each one pays and what balance it
 leaves. `earned` is the refill rate times the time of the call. If balances are capped and grow no
 faster than `earned`, every window of calls pays at most the cap plus what the window earns.
 */
module Ledger {

  datatype Call = Call(earned: real, paid: real, balance: real)

  /** Two neighbouring calls: the balance grew by at most what was earned in between. */
  predicate Follows(before: Call, after: Call) {
    after.balance + after.paid <= before.balance + (after.earned - before.earned)
  }

  predicate Capped(c: Call, cap: real) {
    0.0 <= c.balance && c.balance + c.paid <= cap
  }

  predicate Conforms(calls: seq<Call>, cap: real) {
    && (forall i :: 0 <= i < |calls| ==> Capped(calls[i], cap))
    && (forall i :: 0 < i < |calls| ==> Follows(calls[i - 1], calls[i]))
  }

  function Paid(calls: seq<Call>): real {
    if calls == [] then 0.0 else Paid(calls[..|calls| - 1]) + calls[|calls| - 1].paid
  }

  lemma PaidSnoc(calls: seq<Call>, i: nat, j: nat)
    requires i < j <= |calls|
    ensures Paid(calls[i..j]) == Paid(calls[i..j - 1]) + calls[j - 1].paid
  {
    assert calls[i..j][..j - 1 - i] == calls[i..j - 1];
  }

  lemma {:induction false} WindowBalance(calls: seq<Call>, cap: real, i: nat, j: nat)
    requires Conforms(calls, cap) && i < j <= |calls|
    ensures Paid(calls[i..j]) + calls[j - 1].balance <= cap + (calls[j - 1].earned - calls[i].earned)
    decreases j
  {
    PaidSnoc(calls, i, j);
    assert Capped(calls[j - 1], cap);
    if i + 1 == j {
      assert Paid(calls[i..i]) == 0.0;
    } else {
      WindowBalance(calls, cap, i, j - 1);
      assert Follows(calls[j - 2], calls[j - 1]);
    }
  }

  /** Every window of consecutive calls `i .. j-1`. */
  lemma WindowBound(calls: seq<Call>, cap: real, i: nat, j: nat)
    requires Conforms(calls, cap) && i < j <= |calls|
    ensures Paid(calls[i..j]) <= cap + (calls[j - 1].earned - calls[i].earned)
  {
    WindowBalance(calls, cap, i, j);
    assert Capped(calls[j - 1], cap);
  }

  /** `n` times the same price, as a repeated sum. */
  function Times(price: real, n: nat): real {
    if n == 0 then 0.0 else Times(price, n - 1) + price
  }

  lemma {:induction false} TimesIsProduct(price: real, n: nat)
    ensures Times(price, n) == price * n as real
  {
    if n > 0 {
      TimesIsProduct(price, n - 1);
      MulSplit(price, (n - 1) as real, 1.0);
    }
  }

  lemma MulSplit(rate: real, a: real, b: real)
    ensures rate * (a + b) == rate * a + rate * b
  {
  }

  lemma MulMonotone(rate: real, a: real, b: real)
    requires rate >= 0.0 && a <= b
    ensures rate * a <= rate * b
  {
  }

  lemma EarnedOver(rate: real, a: real, b: real)
    ensures rate * b - rate * a == rate * (b - a)
  {
    MulSplit(rate, a, b - a);
  }
}
