/**
 What fuzzy equality means (crates/traffic-control/src/lib.rs, fuzzy_json_eq): two answers agree exactly when they
 mean the same up to their numbers, and the numbers that stand at the same place are close. Without numbers it is
 equality of meaning.
 */
module FuzzyMeaning {
  import opened Basics
  import opened Json
  import opened FuzzyArbitration

  // ----- Places and shapes -------------------------------------------------------------------------------------

  /** One step down a tree. */
  datatype Step = Index(i: nat) | Field(key: string)

  /** The subtree at a place, if there is one. */
  function At(j: Json, place: seq<Step>): Option<Json>
    decreases |place|
  {
    if place == [] then Some(j)
    else
      match (j, place[0])
      case (Arr(items), Index(i)) => if i < |items| then At(items[i], place[1..]) else None
      case (Obj(entries), Field(key)) =>
        var v := Find(entries, key);
        if v.Some? then At(v.value, place[1..]) else None
      case _ => None
  }

  /** The tree with every number replaced by zero. */
  function Erased(j: Json): Json {
    match j
    case Num(_) => Num(Int(0))
    case Arr(items) => Arr(seq(|items|, i requires 0 <= i < |items| => Erased(items[i])))
    case Obj(entries) =>
      Obj(seq(|entries|, i requires 0 <= i < |entries| => Entry(entries[i].key, Erased(entries[i].value))))
    case _ => j
  }

  /** Numbers at one place of both trees are close. */
  predicate CloseAt(a: Json, b: Json, place: seq<Step>) {
    At(a, place).Some? && At(a, place).value.Num? && At(b, place).Some? && At(b, place).value.Num? ==>
      Close(At(a, place).value.n.AsReal(), At(b, place).value.n.AsReal())
  }

  ghost predicate NumbersClose(a: Json, b: Json) { forall place {:trigger CloseAt(a, b, place)} :: CloseAt(a, b, place) }

  predicate HasNumber(j: Json) {
    match j
    case Num(_) => true
    case Arr(items) => exists i :: 0 <= i < |items| && HasNumber(items[i])
    case Obj(entries) => exists i :: 0 <= i < |entries| && HasNumber(entries[i].value)
    case _ => false
  }

  // ----- Meanings of lists and objects, item by item ---------------------------------------------------------------

  lemma ItemsMeanSame(x: seq<Json>, y: seq<Json>)
    requires |x| == |y| && forall i :: 0 <= i < |x| ==> Meaning(x[i]) == Meaning(y[i])
    ensures MeaningOfItems(x) == MeaningOfItems(y)
  {
    forall i | 0 <= i < |x| ensures MeaningOfItems(x)[i] == MeaningOfItems(y)[i] {
      ItemMeaning(x, i);
      ItemMeaning(y, i);
    }
  }

  /** Entry `e` has a counterpart of the same meaning. */
  predicate Matched(e: Entry, y: seq<Entry>) {
    var v := Find(y, e.key);
    v.Some? && Meaning(e.value) == Meaning(v.value)
  }

  lemma EntriesMeanSame(x: seq<Entry>, y: seq<Entry>)
    requires Distinct(x) && Distinct(y) && |x| == |y| && forall i :: 0 <= i < |x| ==> Matched(x[i], y)
    ensures MeaningOfEntries(x) == MeaningOfEntries(y)
  {
    SameKeys(x, y);
    MeaningKeySet(x);
    MeaningKeySet(y);
    forall k | k in MeaningOfEntries(x) ensures MeaningOfEntries(x)[k] == MeaningOfEntries(y)[k] {
      assert k in Keys(x);
      var i :| 0 <= i < |x| && x[i].key == k;
      assert Matched(x[i], y);
      var j := FindPosition(y, k);
      EntryMeaning(x, i);
      EntryMeaning(y, j);
    }
  }

  lemma ErasedEntries(entries: seq<Entry>, i: nat)
    requires Distinct(entries) && i < |entries|
    ensures var e := Erased(Obj(entries)).entries;
            && Distinct(e) && |e| == |entries| && e[i] == Entry(entries[i].key, Erased(entries[i].value))
            && Find(e, entries[i].key) == Some(Erased(entries[i].value))
  {
    var e := Erased(Obj(entries)).entries;
    assert forall k :: 0 <= k < |entries| ==> e[k].key == entries[k].key;
    FindAt(e, i);
  }

  // ----- Agreement gives equal meaning up to close numbers ---------------------------------------------------------

  lemma {:induction false} AgreeThenSameShape(a: Json, b: Json)
    requires WellFormed(a) && WellFormed(b) && FuzzyEq(a, b)
    ensures Meaning(Erased(a)) == Meaning(Erased(b))
    decreases a
  {
    match (a, b)
    case (Arr(x), Arr(y)) =>
      forall i | 0 <= i < |x| ensures Meaning(Erased(x[i])) == Meaning(Erased(y[i])) { AgreeThenSameShape(x[i], y[i]); }
      ItemsMeanSame(Erased(a).items, Erased(b).items);
    case (Obj(x), Obj(y)) =>
      var e, f := Erased(a).entries, Erased(b).entries;
      assert Distinct(e) && Distinct(f);
      forall i | 0 <= i < |e| ensures Matched(e[i], f) {
        assert FuzzyIn(x[i], y, x[i].value);
        var j := FindPosition(y, x[i].key);
        ErasedEntries(y, j);
        AgreeThenSameShape(x[i].value, y[j].value);
      }
      EntriesMeanSame(e, f);
    case _ =>
  }

  lemma {:induction false} AgreeThenClose(a: Json, b: Json, place: seq<Step>)
    requires WellFormed(a) && WellFormed(b) && FuzzyEq(a, b)
    ensures CloseAt(a, b, place)
    decreases |place|
  {
    if place != [] {
      match (a, b, place[0])
      case (Arr(x), Arr(y), Index(i)) =>
        if i < |x| { AgreeThenClose(x[i], y[i], place[1..]); }
      case (Obj(x), Obj(y), Field(key)) =>
        if Find(x, key).Some? {
          var i := FindPosition(x, key);
          assert FuzzyIn(x[i], y, x[i].value);
          var j := FindPosition(y, key);
          AgreeThenClose(x[i].value, y[j].value, place[1..]);
        }
      case _ =>
    }
  }

  // ----- ... and the other way round ---------------------------------------------------------------------------------

  lemma CloseBelow(a: Json, b: Json, step: Step, v: Json, w: Json)
    requires NumbersClose(a, b) && At(a, [step]) == Some(v) && At(b, [step]) == Some(w)
    ensures NumbersClose(v, w)
  {
    forall place ensures CloseAt(v, w, place) {
      assert ([step] + place)[1..] == place;
      assert CloseAt(a, b, [step] + place);
      assert [step][1..] == [];
    }
  }

  lemma {:induction false} SameShapeAndClose(a: Json, b: Json)
    requires WellFormed(a) && WellFormed(b) && Meaning(Erased(a)) == Meaning(Erased(b)) && NumbersClose(a, b)
    ensures FuzzyEq(a, b)
    decreases a
  {
    match (a, b)
    case (Num(m), Num(n)) => assert CloseAt(a, b, []);
    case (Arr(x), Arr(y)) =>
      forall i | 0 <= i < |x| ensures FuzzyEq(x[i], y[i]) {
        ItemMeaning(Erased(a).items, i);
        ItemMeaning(Erased(b).items, i);
        CloseBelow(a, b, Index(i), x[i], y[i]);
        SameShapeAndClose(x[i], y[i]);
      }
    case (Obj(x), Obj(y)) =>
      var e, f := Erased(a).entries, Erased(b).entries;
      assert Distinct(e) && Distinct(f);
      SameLength(e, f);
      forall i | 0 <= i < |x| ensures FuzzyIn(x[i], y, x[i].value) {
        var k := Counterpart(e, f, i);
        var j := FindPosition(f, e[i].key);
        assert f[j].key == y[j].key == x[i].key;
        FindAt(x, i);
        FindAt(y, j);
        CloseBelow(a, b, Field(x[i].key), x[i].value, y[j].value);
        SameShapeAndClose(x[i].value, y[j].value);
      }
    case _ =>
  }

  /** Two answers agree exactly when they mean the same once numbers are erased, and numbers at the same place of
      both are close. */
  lemma AgreeIff(a: Json, b: Json)
    requires WellFormed(a) && WellFormed(b)
    ensures FuzzyEq(a, b) <==> Meaning(Erased(a)) == Meaning(Erased(b)) && NumbersClose(a, b)
  {
    if FuzzyEq(a, b) {
      AgreeThenSameShape(a, b);
      forall place ensures CloseAt(a, b, place) { AgreeThenClose(a, b, place); }
    }
    if Meaning(Erased(a)) == Meaning(Erased(b)) && NumbersClose(a, b) { SameShapeAndClose(a, b); }
  }

  // ----- Without numbers -----------------------------------------------------------------------------------------------

  lemma {:induction false} AgreeThenSameMeaning(a: Json, b: Json)
    requires WellFormed(a) && WellFormed(b) && FuzzyEq(a, b) && !HasNumber(a)
    ensures Meaning(a) == Meaning(b)
    decreases a
  {
    match (a, b)
    case (Arr(x), Arr(y)) =>
      forall i | 0 <= i < |x| ensures Meaning(x[i]) == Meaning(y[i]) { AgreeThenSameMeaning(x[i], y[i]); }
      ItemsMeanSame(x, y);
    case (Obj(x), Obj(y)) =>
      forall i | 0 <= i < |x| ensures Matched(x[i], y) {
        assert FuzzyIn(x[i], y, x[i].value);
        var j := FindPosition(y, x[i].key);
        AgreeThenSameMeaning(x[i].value, y[j].value);
      }
      EntriesMeanSame(x, y);
    case _ =>
  }

  /** If one of two answers holds no number, they agree exactly when they mean the same. */
  lemma AgreeIffSameMeaning(a: Json, b: Json)
    requires WellFormed(a) && WellFormed(b) && (!HasNumber(a) || !HasNumber(b))
    ensures FuzzyEq(a, b) <==> Meaning(a) == Meaning(b)
  {
    if FuzzyEq(a, b) {
      if HasNumber(a) {
        FuzzySymmetric(a, b);
        AgreeThenSameMeaning(b, a);
      } else {
        AgreeThenSameMeaning(a, b);
      }
    }
    if Meaning(a) == Meaning(b) { SameMeaningAgrees(a, b); }
  }

  /** Among answers without numbers, agreement is found exactly when two of them mean the same. */
  lemma AgreementIffSameMeaning(results: seq<BackendResult>)
    requires forall i :: 0 <= i < |results| ==> WellFormed(results[i].tree) && !HasNumber(results[i].tree)
    ensures Agreement(results) <==>
              exists i, j :: 0 <= i < j < |results| && Meaning(results[i].tree) == Meaning(results[j].tree)
  {
    forall i, j | 0 <= i < j < |results|
      ensures Agree(results[i], results[j]) <==> Meaning(results[i].tree) == Meaning(results[j].tree)
    {
      AgreeIffSameMeaning(results[i].tree, results[j].tree);
    }
  }
}
