/**
 Numbers in JSON trees: every floating-point value has one representation, and there are renderings of
 numbers that tell any two apart. Serde's own rendering is one: it prints an integer in decimal and a float
 as the shortest decimal that reads back to it, always with a point or an exponent.
 */
module JsonNumbers {
  import opened Decimals
  import opened Json
  import opened CanonicalJson

  // ----- One representation per value ---------------------------------------------------------------------

  lemma {:induction false} ScaledTwice(m: int, e: int)
    ensures Scaled(2 * m, e) == 2.0 * Scaled(m, e)
    decreases if e < 0 then -e else e
  {
    if e > 0 { ScaledTwice(2 * m, e - 1); } else if e < 0 { ScaledTwice(m, e + 1); }
  }

  lemma ScaledStep(m: int, e: int)
    ensures Scaled(m, e + 1) == Scaled(2 * m, e)
  {
    if e < 0 { ScaledTwice(m, e + 1); }
  }

  lemma {:induction false} ScaledInjective(m: int, n: int, e: int)
    requires Scaled(m, e) == Scaled(n, e)
    ensures m == n
    decreases if e < 0 then -e else e
  {
    if e > 0 { ScaledInjective(2 * m, 2 * n, e - 1); } else if e < 0 { ScaledInjective(m, n, e + 1); }
  }

  lemma {:induction false} ScaledZero(e: int)
    ensures Scaled(0, e) == 0.0
    decreases if e < 0 then -e else e
  {
    if e > 0 { ScaledZero(e - 1); } else if e < 0 { ScaledZero(e + 1); }
  }

  /** `m` doubled `k` times. */
  function Doubled(m: int, k: nat): int
    decreases k
  {
    if k == 0 then m else Doubled(2 * m, k - 1)
  }

  lemma {:induction false} DoubledEven(m: int, k: nat)
    requires m % 2 == 0
    ensures Doubled(m, k) % 2 == 0
    decreases k
  {
    if k > 0 { DoubledEven(2 * m, k - 1); }
  }

  lemma {:induction false} ScaledDoubled(m: int, e: int, k: nat)
    ensures Scaled(m, e + k) == Scaled(Doubled(m, k), e)
    decreases k
  {
    if k > 0 {
      ScaledStep(m, e + (k - 1));
      ScaledDoubled(2 * m, e, k - 1);
    }
  }

  lemma SameExponent(m: int, e: int, m': int, e': int, k: nat)
    requires m % 2 == 1 && m' % 2 == 1 && e' == e + k && Scaled(m, e) == Scaled(m', e')
    ensures m == m' && k == 0
  {
    ScaledDoubled(m', e, k);
    ScaledInjective(m, Doubled(m', k), e);
    if k > 0 { DoubledEven(2 * m', k - 1); }
  }

  lemma ZeroOnly(m: int, e: int)
    requires Scaled(m, e) == 0.0
    ensures m == 0
  {
    ScaledZero(e);
    ScaledInjective(m, 0, e);
  }

  /** Floating-point numbers with the same value are the same number. */
  lemma SameValueSameFloat(a: Number, b: Number)
    requires a.Float? && b.Float? && a.AsReal() == b.AsReal()
    ensures a == b
  {
    if a.significand == 0 {
      ZeroOnly(b.significand, b.exponent);
    } else if b.significand == 0 {
      ZeroOnly(a.significand, a.exponent);
    } else if a.exponent <= b.exponent {
      SameExponent(a.significand, a.exponent, b.significand, b.exponent, b.exponent - a.exponent);
    } else {
      SameExponent(b.significand, b.exponent, a.significand, a.exponent, a.exponent - b.exponent);
    }
  }

  /** The number with a given significand and exponent. */
  function Normalize(m: int, e: int): (n: Number)
    ensures n.Float? && n.AsReal() == Scaled(m, e)
    decreases if m < 0 then -m else m
  {
    if m == 0 then
      ScaledZero(e);
      Float(0, 0)
    else if m % 2 == 1 then Float(m, e)
    else
      ScaledStep(m / 2, e);
      Normalize(m / 2, e + 1)
  }

  // ----- A faithful rendering --------------------------------------------------------------------------------

  function Signed(i: int): string { if i < 0 then "-" + Decimal(-i) else Decimal(i) }

  function Render(n: Number): string {
    match n
    case Int(i) => Signed(i)
    case Float(m, e) => Signed(m) + "e" + Signed(e)
    case NegativeZero => "-0.0"
  }

  predicate IsSigned(s: string) {
    s != "" && (IsDigit(s[0]) || s[0] == '-') && forall i :: 0 < i < |s| ==> IsDigit(s[i])
  }

  lemma SignedChars(i: int)
    ensures IsSigned(Signed(i))
  {
    DecimalDigits(if i < 0 then -i else i);
  }

  lemma SignedInjective(i: int, j: int)
    requires Signed(i) == Signed(j)
    ensures i == j
  {
    var a, b := if i < 0 then -i else i, if j < 0 then -j else j;
    DecimalDigits(a);
    DecimalDigits(b);
    assert i < 0 <==> Signed(i)[0] == '-';
    assert i < 0 ==> Signed(i)[1..] == Decimal(a);
    assert j < 0 ==> Signed(j)[1..] == Decimal(b);
    DecimalInjective(a, b);
  }

  /** The letter between significand and exponent is the only one. */
  lemma SplitAtE(a: string, b: string, c: string, d: string)
    requires 'e' !in a && 'e' !in c && a + "e" + b == c + "e" + d
    ensures a == c && b == d
  {
    var s := a + "e" + b;
    assert s[|a|] == 'e' && (c + "e" + d)[|c|] == 'e';
    assert |a| == |c|;
    assert a == s[..|a|] == c && b == s[|a| + 1..] == d;
  }

  lemma SignedHasNoE(i: int)
    ensures 'e' !in Signed(i) && '.' !in Signed(i)
  {
    SignedChars(i);
  }

  lemma RenderInjective(n: Number, m: Number)
    requires Render(n) == Render(m)
    ensures n == m
  {
    RenderShape(n);
    RenderShape(m);
    match (n, m)
    case (Int(i), Int(j)) => SignedInjective(i, j);
    case (Float(a, b), Float(c, d)) =>
      SignedHasNoE(a);
      SignedHasNoE(c);
      SplitAtE(Signed(a), Signed(b), Signed(c), Signed(d));
      SignedInjective(a, c);
      SignedInjective(b, d);
    case _ =>
  }

  /** Which kind of number a text belongs to shows in its letters. */
  lemma RenderShape(n: Number)
    ensures 'e' in Render(n) <==> n.Float?
    ensures '.' in Render(n) <==> n.NegativeZero?
  {
    match n
    case Int(i) => SignedHasNoE(i);
    case Float(m, e) =>
      SignedHasNoE(m);
      SignedHasNoE(e);
      assert Render(n)[|Signed(m)|] == 'e';
    case NegativeZero => assert "-0.0"[2] == '.';
  }

  lemma RenderChars(n: Number)
    ensures Render(n) != "" && ('0' <= Render(n)[0] <= '9' || Render(n)[0] == '-')
    ensures forall i :: 0 <= i < |Render(n)| ==> IsNumeric(Render(n)[i])
  {
    match n
    case Int(i) => SignedChars(i);
    case Float(m, e) =>
      SignedChars(m);
      SignedChars(e);
    case NegativeZero =>
  }

  /** Faithful renderings exist. */
  lemma RenderIsFaithful()
    ensures FaithfulNumbers(Render)
  {
    forall n: Number
      ensures Render(n) != "" && ('0' <= Render(n)[0] <= '9' || Render(n)[0] == '-')
      ensures forall i :: 0 <= i < |Render(n)| ==> IsNumeric(Render(n)[i])
    {
      RenderChars(n);
    }
    forall n: Number, m: Number | Render(n) == Render(m) ensures n == m { RenderInjective(n, m); }
  }
}
