/**
 Which answers fuzzy equality treats transitively (crates/traffic-control/src/lib.rs, fuzzy_json_eq): exactly
 those without a number other than zero. Every other answer starts a chain of two agreeing steps that leads
 to an answer it does not agree with.
 */
module FuzzyTransitivity {
  import opened Basics
  import opened Json
  import opened JsonNumbers
  import opened FuzzyArbitration

  predicate HasNonzero(j: Json) {
    match j
    case Num(n) => n.AsReal() != 0.0
    case Arr(items) => exists i :: 0 <= i < |items| && HasNonzero(items[i])
    case Obj(entries) => exists i :: 0 <= i < |entries| && HasNonzero(entries[i].value)
    case _ => false
  }

  // ----- Zero is close to zero only --------------------------------------------------------------------------

  lemma CloseToZero(y: real)
    requires Close(0.0, y)
    ensures y == 0.0
  {
  }

  lemma {:induction false} TransitiveAtZero(a: Json, b: Json, c: Json)
    requires WellFormed(a) && WellFormed(b) && WellFormed(c) && !HasNonzero(a)
    requires FuzzyEq(a, b) && FuzzyEq(b, c)
    ensures FuzzyEq(a, c)
    decreases a
  {
    match (a, b, c)
    case (Num(n), Num(m), Num(k)) =>
      CloseToZero(m.AsReal());
      CloseToZero(k.AsReal());
    case (Arr(x), Arr(y), Arr(z)) =>
      forall i | 0 <= i < |x| ensures FuzzyEq(x[i], z[i]) { TransitiveAtZero(x[i], y[i], z[i]); }
    case (Obj(x), Obj(y), Obj(z)) =>
      forall i | 0 <= i < |x| ensures FuzzyIn(x[i], z, x[i].value) {
        assert FuzzyIn(x[i], y, x[i].value);
        var j := FindPosition(y, x[i].key);
        assert FuzzyIn(y[j], z, y[j].value);
        var k := FindPosition(z, x[i].key);
        TransitiveAtZero(x[i].value, y[j].value, z[k].value);
      }
    case _ =>
  }

  // ----- Any other number starts a chain -----------------------------------------------------------------------

  lemma DoubledFour(m: int, k: nat)
    requires k >= 4
    ensures Doubled(m, k) == Doubled(16 * m, k - 4)
  {
    assert Doubled(m, k) == Doubled(2 * m, k - 1) == Doubled(4 * m, k - 2) == Doubled(8 * m, k - 3);
  }

  lemma DoubledTwenty(m: int)
    ensures Doubled(m, 20) == 1048576 * m
  {
    DoubledFour(m, 20);
    DoubledFour(16 * m, 16);
    DoubledFour(256 * m, 12);
    DoubledFour(4096 * m, 8);
    DoubledFour(65536 * m, 4);
  }

  /** The 1048576th part of a number. */
  function Unit(n: Number): real {
    match n
    case Int(i) => Scaled(i, -20)
    case Float(m, e) => Scaled(m, e - 20)
    case NegativeZero => 0.0
  }

  /** One or two parts more than all 1048576. */
  function Added(m: int, d: nat): int { if d == 1 then 1048577 * m else 1048578 * m }

  /** The number enlarged by one or two of these parts. */
  function Nudged(n: Number, d: nat): Number {
    match n
    case Int(i) => Nudge(i, -20, d)
    case Float(m, e) => Nudge(m, e - 20, d)
    case NegativeZero => NegativeZero
  }

  function Nudge(m: int, e: int, d: nat): (n: Number)
    ensures n.AsReal() == Scaled(Added(m, d), e)
  {
    Normalize(Added(m, d), e)
  }

  lemma UnitIsPart(n: Number)
    ensures n.AsReal() == 1048576.0 * Unit(n)
  {
    match n
    case Int(i) => ScaledUnit(i, 0);
    case Float(m, e) => ScaledUnit(m, e);
    case NegativeZero =>
  }

  lemma {:induction false} ScaledParts(m: int, e: int)
    ensures Scaled(1048576 * m, e) == 1048576.0 * Scaled(m, e)
    ensures Scaled(1048577 * m, e) == 1048577.0 * Scaled(m, e)
    ensures Scaled(1048578 * m, e) == 1048578.0 * Scaled(m, e)
    decreases if e < 0 then -e else e
  {
    if e > 0 { ScaledParts(2 * m, e - 1); } else if e < 0 { ScaledParts(m, e + 1); }
  }

  lemma ScaledUnit(m: int, e: int)
    ensures Scaled(m, e) == 1048576.0 * Scaled(m, e - 20)
  {
    ScaledDoubled(m, e - 20, 20);
    DoubledTwenty(m);
    ScaledParts(m, e - 20);
  }

  lemma NudgedValue(n: Number)
    ensures Nudged(n, 1).AsReal() == 1048577.0 * Unit(n)
    ensures Nudged(n, 2).AsReal() == 1048578.0 * Unit(n)
  {
    match n
    case Int(i) => ScaledParts(i, -20);
    case Float(m, e) => ScaledParts(m, e - 20);
    case NegativeZero =>
  }

  /** Three values one part apart. */
  predicate Evenly(x: real, y: real, z: real) { x == 1048576.0 * (y - x) && z - y == y - x }

  /** One part is within the tolerance, two parts are not. */
  lemma Steps(x: real, y: real, z: real)
    requires Evenly(x, y, z)
    ensures Close(x, y) && Close(y, z) && (x != 0.0 ==> !Close(x, z))
  {
  }

  /** The tree with every number enlarged by `d` parts; `Variant(a, 0)` is the tree itself. */
  function Variant(j: Json, d: nat): Json {
    if d == 0 then j
    else
      match j
      case Num(n) => Num(Nudged(n, d))
      case Arr(items) => Arr(seq(|items|, i requires 0 <= i < |items| => Variant(items[i], d)))
      case Obj(entries) =>
        Obj(seq(|entries|, i requires 0 <= i < |entries| => Entry(entries[i].key, Variant(entries[i].value, d))))
      case _ => j
  }

  lemma {:induction false} VariantWellFormed(j: Json, d: nat)
    requires WellFormed(j)
    ensures WellFormed(Variant(j, d))
    decreases j
  {
    match j
    case Arr(items) => forall i | 0 <= i < |items| ensures WellFormed(Variant(items[i], d)) { VariantWellFormed(items[i], d); }
    case Obj(entries) =>
      forall i | 0 <= i < |entries| ensures WellFormed(Variant(entries[i].value, d)) { VariantWellFormed(entries[i].value, d); }
    case _ =>
  }

  /** The entry of a variant that stands where `entries[i]` stands. */
  lemma VariantEntry(entries: seq<Entry>, i: nat, d: nat)
    requires Distinct(entries) && i < |entries|
    ensures var v := Variant(Obj(entries), d);
            && v.Obj? && |v.entries| == |entries| && v.entries[i] == Entry(entries[i].key, Variant(entries[i].value, d))
            && Find(v.entries, entries[i].key) == Some(Variant(entries[i].value, d))
  {
    var v := Variant(Obj(entries), d).entries;
    assert forall k :: 0 <= k < |entries| ==> v[k].key == entries[k].key;
    FindAt(v, i);
  }

  function Value(n: Number, d: nat): real { Variant(Num(n), d).n.AsReal() }

  lemma ValuesAreEven(n: Number)
    ensures Evenly(Value(n, 0), Value(n, 1), Value(n, 2))
  {
    UnitIsPart(n);
    NudgedValue(n);
  }

  lemma NumbersStep(n: Number)
    ensures Close(Value(n, 0), Value(n, 1)) && Close(Value(n, 1), Value(n, 2))
    ensures n.AsReal() != 0.0 ==> !Close(Value(n, 0), Value(n, 2))
  {
    ValuesAreEven(n);
    Steps(Value(n, 0), Value(n, 1), Value(n, 2));
  }

  /** Neighbouring variants agree. */
  lemma {:induction false} NeighboursAgree(j: Json, d: nat)
    requires WellFormed(j) && d <= 1
    ensures FuzzyEq(Variant(j, d), Variant(j, d + 1))
    decreases j
  {
    match j
    case Num(n) => NumbersStep(n);
    case Arr(items) =>
      var x, y := Variant(j, d).items, Variant(j, d + 1).items;
      forall i | 0 <= i < |x| ensures FuzzyEq(x[i], y[i]) { NeighboursAgree(items[i], d); }
    case Obj(entries) =>
      var x, y := Variant(j, d).entries, Variant(j, d + 1).entries;
      forall i | 0 <= i < |x| ensures FuzzyIn(x[i], y, x[i].value) {
        VariantEntry(entries, i, d);
        VariantEntry(entries, i, d + 1);
        NeighboursAgree(entries[i].value, d);
      }
    case _ =>
  }

  /** The ends of the chain do not agree, if there is a number to tell them apart. */
  lemma {:induction false} EndsDisagree(j: Json)
    requires WellFormed(j) && HasNonzero(j)
    ensures !FuzzyEq(j, Variant(j, 2))
    decreases j
  {
    match j
    case Num(n) => NumbersStep(n);
    case Arr(items) =>
      var i :| 0 <= i < |items| && HasNonzero(items[i]);
      EndsDisagree(items[i]);
      assert Variant(j, 2).items[i] == Variant(items[i], 2);
    case Obj(entries) =>
      var i :| 0 <= i < |entries| && HasNonzero(entries[i].value);
      EndsDisagree(entries[i].value);
      VariantEntry(entries, i, 2);
      assert !FuzzyIn(entries[i], Variant(j, 2).entries, entries[i].value);
  }

  lemma ChainBreaks(a: Json)
    requires WellFormed(a) && HasNonzero(a)
    ensures var b, c := Variant(a, 1), Variant(a, 2);
            WellFormed(b) && WellFormed(c) && FuzzyEq(a, b) && FuzzyEq(b, c) && !FuzzyEq(a, c)
  {
    VariantWellFormed(a, 1);
    VariantWellFormed(a, 2);
    NeighboursAgree(a, 0);
    NeighboursAgree(a, 1);
    EndsDisagree(a);
  }

  /** Whatever agrees with what `a` agrees with, agrees with `a`. */
  ghost predicate TransitiveFrom(a: Json) {
    forall b, c :: WellFormed(b) && WellFormed(c) && FuzzyEq(a, b) && FuzzyEq(b, c) ==> FuzzyEq(a, c)
  }

  /** Fuzzy equality is transitive from an answer exactly when the answer holds no number other than zero. */
  lemma TransitiveIff(a: Json)
    requires WellFormed(a)
    ensures TransitiveFrom(a) <==> !HasNonzero(a)
  {
    if HasNonzero(a) {
      ChainBreaks(a);
    } else {
      forall b, c | WellFormed(b) && WellFormed(c) && FuzzyEq(a, b) && FuzzyEq(b, c) ensures FuzzyEq(a, c) {
        TransitiveAtZero(a, b, c);
      }
    }
  }
}
