/**
 The second voter (crates/traffic-control/src/lib.rs, TmrArbitrator and fuzzy_json_eq): two answers agree
 when their JSON trees are equal up to a relative error of 1e-6 in every number. Each backend's payload
 comes with its parsed tree, which holds no object with a repeated key.
 */
module FuzzyArbitration {
  import opened Json
  import CanonicalJson
  import opened Basics

  // ----- Fuzzy equality ------------------------------------------------------------------------------

  const FUZZY_DELTA: real := 0.000001

  function Abs(x: real): real { if x < 0.0 then -x else x }

  function Max(x: real, y: real): real { if x < y then y else x }

  /** The difference is at most a millionth of the larger magnitude. */
  predicate Close(x: real, y: real) { 1000000.0 * Abs(x - y) <= Max(Abs(x), Abs(y)) }

  /** This is the comparison of the relative error with FUZZY_DELTA. */
  lemma CloseIsRelativeError(x: real, y: real)
    ensures var diff, largest := Abs(x - y), Max(Abs(x), Abs(y));
            Close(x, y) <==> if largest > 0.0 then diff / largest <= FUZZY_DELTA else diff <= FUZZY_DELTA
  {
    var diff, largest := Abs(x - y), Max(Abs(x), Abs(y));
    if largest > 0.0 { Quotient(diff, largest); }
  }

  lemma Quotient(diff: real, largest: real)
    requires largest > 0.0
    ensures diff / largest <= 0.000001 <==> 1000000.0 * diff <= largest
  {
    var q := diff / largest;
    assert q * largest == diff;
    if q <= 0.000001 { Grows(q, 0.000001, largest); } else { GrowsStrictly(0.000001, q, largest); }
  }

  lemma Grows(a: real, b: real, p: real)
    requires a <= b && p > 0.0
    ensures a * p <= b * p
  {
  }

  lemma GrowsStrictly(a: real, b: real, p: real)
    requires a < b && p > 0.0
    ensures a * p < b * p
  {
  }

  function Find(entries: seq<Entry>, key: string): Option<Json> {
    if entries == [] then None
    else if entries[0].key == key then Some(entries[0].value)
    else Find(entries[1..], key)
  }

  predicate FuzzyEq(a: Json, b: Json)
    decreases a, 0
  {
    match (a, b)
    case (Num(m), Num(n)) => Close(m.AsReal(), n.AsReal())
    case (Arr(x), Arr(y)) => |x| == |y| && forall i :: 0 <= i < |x| ==> FuzzyEq(x[i], y[i])
    case (Obj(x), Obj(y)) => |x| == |y| && forall i :: 0 <= i < |x| ==> FuzzyIn(x[i], y, x[i].value)
    case (Str(s), Str(t)) => s == t
    case (Bool(p), Bool(q)) => p == q
    case (Null, Null) => true
    case _ => false
  }

  /** The entry `e`, whose value is `v`, has a counterpart among `entries`. */
  predicate FuzzyIn(e: Entry, entries: seq<Entry>, v: Json)
    decreases v, 1
  {
    var w := Find(entries, e.key);
    w.Some? && FuzzyEq(v, w.value)
  }

  predicate Distinct(entries: seq<Entry>) {
    forall i, j :: 0 <= i < j < |entries| ==> entries[i].key != entries[j].key
  }

  /** No object repeats a key: what a parsed tree always satisfies. */
  predicate WellFormed(j: Json) {
    match j
    case Arr(items) => forall i :: 0 <= i < |items| ==> WellFormed(items[i])
    case Obj(entries) => Distinct(entries) && forall i :: 0 <= i < |entries| ==> WellFormed(entries[i].value)
    case _ => true
  }

  lemma {:induction false} FindAt(entries: seq<Entry>, i: nat)
    requires Distinct(entries) && i < |entries|
    ensures Find(entries, entries[i].key) == Some(entries[i].value)
  {
    if i > 0 { FindAt(entries[1..], i - 1); }
  }

  lemma {:induction false} FindPosition(entries: seq<Entry>, key: string) returns (i: nat)
    requires Find(entries, key).Some?
    ensures i < |entries| && entries[i] == Entry(key, Find(entries, key).value)
  {
    if entries[0].key == key {
      i := 0;
    } else {
      var k := FindPosition(entries[1..], key);
      i := k + 1;
    }
  }

  function Keys(entries: seq<Entry>): set<string> { set i | 0 <= i < |entries| :: entries[i].key }

  lemma {:induction false} KeyCount(entries: seq<Entry>)
    requires Distinct(entries)
    ensures |Keys(entries)| == |entries|
  {
    if entries != [] {
      var tail := entries[1..];
      KeyCount(tail);
      assert Keys(entries) == {entries[0].key} + Keys(tail) by {
        forall k | k in Keys(entries) ensures k in {entries[0].key} + Keys(tail) {
          var i :| 0 <= i < |entries| && entries[i].key == k;
          if i > 0 { assert tail[i - 1].key == k; }
        }
        forall k | k in Keys(tail) ensures k in Keys(entries) {
          var i :| 0 <= i < |tail| && tail[i].key == k;
          assert entries[i + 1].key == k;
        }
      }
      assert entries[0].key !in Keys(tail);
    }
  }

  lemma FullSubset(a: set<string>, b: set<string>)
    requires a <= b && |a| == |b|
    ensures a == b
  {
    assert |b - a| == |b| - |a|;
  }

  /** Equally long entry lists, each key of the one found in the other: the keys are the same. */
  lemma SameKeys(x: seq<Entry>, y: seq<Entry>)
    requires Distinct(x) && Distinct(y) && |x| == |y|
    requires forall i :: 0 <= i < |x| ==> Find(y, x[i].key).Some?
    ensures Keys(x) == Keys(y)
  {
    forall k | k in Keys(x) ensures k in Keys(y) {
      var i :| 0 <= i < |x| && x[i].key == k;
      var j := FindPosition(y, k);
      assert y[j].key == k;
    }
    KeyCount(x);
    KeyCount(y);
    FullSubset(Keys(x), Keys(y));
  }

  /** Agreement does not depend on which of the two answers came first. */
  lemma {:induction false} FuzzySymmetric(a: Json, b: Json)
    requires WellFormed(a) && WellFormed(b) && FuzzyEq(a, b)
    ensures FuzzyEq(b, a)
    decreases a
  {
    match (a, b)
    case (Arr(x), Arr(y)) =>
      forall i | 0 <= i < |y| ensures FuzzyEq(y[i], x[i]) { FuzzySymmetric(x[i], y[i]); }
    case (Obj(x), Obj(y)) =>
      assert forall i :: 0 <= i < |x| ==> FuzzyIn(x[i], y, x[i].value);
      SameKeys(x, y);
      forall i | 0 <= i < |y| ensures FuzzyIn(y[i], x, y[i].value) {
        assert y[i].key in Keys(x);
        var k :| 0 <= k < |x| && x[k].key == y[i].key;
        FindAt(x, k);
        FindAt(y, i);
        assert FuzzyIn(x[k], y, x[k].value);
        FuzzySymmetric(x[k].value, y[i].value);
      }
    case _ =>
  }

  // ----- Fuzzy agreement is weaker than equal meaning -----------------------------------------------------

  lemma {:induction false} ItemMeaning(items: seq<Json>, i: nat)
    requires i < |items|
    ensures MeaningOfItems(items)[i] == Meaning(items[i])
  {
    if i > 0 { ItemMeaning(items[1..], i - 1); }
  }

  lemma {:induction false} EntryMeaning(entries: seq<Entry>, i: nat)
    requires Distinct(entries) && i < |entries|
    ensures entries[i].key in MeaningOfEntries(entries)
    ensures MeaningOfEntries(entries)[entries[i].key] == Meaning(entries[i].value)
  {
    var tail := entries[1..];
    if i > 0 {
      EntryMeaning(tail, i - 1);
    } else {
      CanonicalJson.MeaningKeys(tail, entries[0].key);
    }
  }

  lemma MeaningKeySet(entries: seq<Entry>)
    ensures MeaningOfEntries(entries).Keys == Keys(entries)
  {
    forall k ensures k in MeaningOfEntries(entries) <==> k in Keys(entries) { CanonicalJson.MeaningKeys(entries, k); }
  }

  lemma SameLength(x: seq<Entry>, y: seq<Entry>)
    requires Distinct(x) && Distinct(y) && MeaningOfEntries(x) == MeaningOfEntries(y)
    ensures |x| == |y|
  {
    MeaningKeySet(x);
    MeaningKeySet(y);
    KeyCount(x);
    KeyCount(y);
  }

  lemma Counterpart(x: seq<Entry>, y: seq<Entry>, i: nat) returns (k: nat)
    requires Distinct(x) && Distinct(y) && MeaningOfEntries(x) == MeaningOfEntries(y) && i < |x|
    ensures k < |y| && Find(y, x[i].key) == Some(y[k].value) && Meaning(x[i].value) == Meaning(y[k].value)
  {
    EntryMeaning(x, i);
    CanonicalJson.MeaningKeys(y, x[i].key);
    k :| 0 <= k < |y| && y[k].key == x[i].key;
    FindAt(y, k);
    EntryMeaning(y, k);
  }

  /** Trees that mean the same always agree; in particular every tree agrees with itself. */
  lemma {:induction false} SameMeaningAgrees(a: Json, b: Json)
    requires WellFormed(a) && WellFormed(b) && Meaning(a) == Meaning(b)
    ensures FuzzyEq(a, b)
    decreases a
  {
    match (a, b)
    case (Arr(x), Arr(y)) =>
      forall i | 0 <= i < |x| ensures FuzzyEq(x[i], y[i]) {
        ItemMeaning(x, i);
        ItemMeaning(y, i);
        SameMeaningAgrees(x[i], y[i]);
      }
    case (Obj(x), Obj(y)) =>
      SameLength(x, y);
      forall i | 0 <= i < |x| ensures FuzzyIn(x[i], y, x[i].value) {
        var k := Counterpart(x, y, i);
        SameMeaningAgrees(x[i].value, y[k].value);
      }
    case _ =>
  }

  /** Answers that the canonical voter puts into one class agree here too. */
  lemma CanonicalVotersAgree(a: Json, b: Json)
    requires WellFormed(a) && WellFormed(b) && CanonicalJson.SortKeys(a) == CanonicalJson.SortKeys(b)
    ensures FuzzyEq(a, b)
  {
    CanonicalJson.SameSortIffSameMeaning(a, b);
    SameMeaningAgrees(a, b);
  }

  // ----- Arbitration ---------------------------------------------------------------------------------------

  datatype BackendResult = BackendResult(nodeId: string, payload: string, tree: Json)

  /** The backends in order of arrival; a failed one delivers nothing. */
  type Arrivals = seq<Option<BackendResult>>

  function Successes(arrivals: Arrivals): seq<BackendResult> {
    if arrivals == [] then []
    else
      var before, last := Successes(arrivals[..|arrivals| - 1]), arrivals[|arrivals| - 1];
      if last.Some? then before + [last.value] else before
  }

  predicate Agree(a: BackendResult, b: BackendResult) { FuzzyEq(a.tree, b.tree) }

  /** Some two results agree, the earlier with the later. */
  ghost predicate Agreement(results: seq<BackendResult>) {
    exists i, j :: 0 <= i < j < |results| && Agree(results[i], results[j])
  }

  method HasConsensus(results: seq<BackendResult>) returns (found: bool)
    ensures found <==> Agreement(results)
  {
    if |results| < 2 { return false; }
    for i := 0 to |results|
      invariant forall k, j :: 0 <= k < i && k < j < |results| ==> !Agree(results[k], results[j])
    {
      var count := 1;
      for j := i + 1 to |results|
        invariant count >= 1
        invariant count >= 2 <==> exists k :: i < k < j && Agree(results[i], results[k])
      {
        if Agree(results[i], results[j]) { count := count + 1; }
      }
      if count >= 2 { return true; }
    }
    return false;
  }

  lemma {:induction false} SuccessesPrefix(arrivals: Arrivals, n: nat)
    requires n <= |arrivals|
    ensures Successes(arrivals[..n]) <= Successes(arrivals)
  {
    if n < |arrivals| {
      var init := arrivals[..|arrivals| - 1];
      assert init[..n] == arrivals[..n];
      SuccessesPrefix(init, n);
    } else {
      assert arrivals[..n] == arrivals;
    }
  }

  /** Result `j` is the first that agrees with an earlier one. */
  ghost predicate FirstToAgree(results: seq<BackendResult>, j: nat) {
    && j < |results| && !Agreement(results[..j])
    && exists i :: 0 <= i < j && Agree(results[i], results[j])
  }

  /** The first result that agrees with an earlier one; failing that, the first result; failing that,
      an error: exactly when every backend has failed. */
  method Arbitrate(arrivals: Arrivals) returns (answer: Option<BackendResult>, agreed: bool)
    ensures agreed <==> Agreement(Successes(arrivals))
    ensures agreed ==> exists j: nat :: FirstToAgree(Successes(arrivals), j) && answer == Some(Successes(arrivals)[j])
    ensures !agreed ==> answer == if Successes(arrivals) == [] then None else Some(Successes(arrivals)[0])
  {
    var results: seq<BackendResult> := [];
    for n := 0 to |arrivals|
      invariant results == Successes(arrivals[..n]) && !Agreement(results)
    {
      ghost var before := results;
      assert arrivals[..n + 1][..n] == arrivals[..n];
      if arrivals[n].Some? {
        results := results + [arrivals[n].value];
        var found := HasConsensus(results);
        if found {
          assert results[..|results| - 1] == before;
          SuccessesPrefix(arrivals, n + 1);
          return Some(arrivals[n].value), true;
        }
      }
    }
    assert arrivals[..|arrivals|] == arrivals;
    return if results == [] then None else Some(results[0]), false;
  }

  // ----- Order of arrival ------------------------------------------------------------------------------------

  function Without<T>(x: seq<T>, i: nat): seq<T>
    requires i < |x|
  {
    x[..i] + x[i + 1..]
  }

  lemma WithoutMultiset<T>(x: seq<T>, i: nat)
    requires i < |x|
    ensures multiset(Without(x, i)) == multiset(x) - multiset{x[i]}
  {
    assert x == x[..i] + [x[i]] + x[i + 1..];
  }

  lemma Position<T>(x: seq<T>, v: T) returns (i: nat)
    requires v in multiset(x)
    ensures i < |x| && x[i] == v
  {
    assert v in x;
    i :| 0 <= i < |x| && x[i] == v;
  }

  /** Two places of one list are found again, as two places, in every reordering. */
  lemma TwoPlaces<T>(x: seq<T>, y: seq<T>, i: nat, j: nat) returns (p: nat, q: nat)
    requires multiset(x) == multiset(y) && i < j < |x|
    ensures p < |y| && q < |y| && p != q && y[p] == x[i] && y[q] == x[j]
  {
    assert x[i] in multiset(x);
    p := Position(y, x[i]);
    WithoutMultiset(x, i);
    WithoutMultiset(y, p);
    assert Without(x, i)[j - 1] == x[j];
    var k := Position(Without(y, p), x[j]);
    q := if k < p then k else k + 1;
  }

  lemma AgreementReordered(x: seq<BackendResult>, y: seq<BackendResult>)
    requires multiset(x) == multiset(y) && forall i :: 0 <= i < |y| ==> WellFormed(y[i].tree)
    requires Agreement(x)
    ensures Agreement(y)
  {
    var i, j :| 0 <= i < j < |x| && Agree(x[i], x[j]);
    var p, q := TwoPlaces(x, y, i, j);
    if p < q {
      assert Agree(y[p], y[q]);
    } else {
      FuzzySymmetric(y[p].tree, y[q].tree);
      assert Agree(y[q], y[p]);
    }
  }

  lemma {:induction false} SuccessCount(arrivals: Arrivals, r: BackendResult)
    ensures multiset(Successes(arrivals))[r] == multiset(arrivals)[Some(r)]
  {
    if arrivals != [] {
      var n := |arrivals| - 1;
      SuccessCount(arrivals[..n], r);
      assert arrivals == arrivals[..n] + [arrivals[n]];
    }
  }

  lemma SuccessMember(arrivals: Arrivals, i: nat)
    requires i < |Successes(arrivals)|
    ensures Some(Successes(arrivals)[i]) in multiset(arrivals)
  {
    SuccessCount(arrivals, Successes(arrivals)[i]);
    assert Successes(arrivals)[i] in multiset(Successes(arrivals));
  }

  predicate AllWellFormed(arrivals: Arrivals) {
    forall i :: 0 <= i < |arrivals| && arrivals[i].Some? ==> WellFormed(arrivals[i].value.tree)
  }

  lemma AgreementSurvives(a: Arrivals, b: Arrivals)
    requires multiset(a) == multiset(b) && AllWellFormed(b)
    requires Agreement(Successes(a))
    ensures Agreement(Successes(b))
  {
    var x, y := Successes(a), Successes(b);
    forall r ensures multiset(x)[r] == multiset(y)[r] {
      SuccessCount(a, r);
      SuccessCount(b, r);
    }
    assert multiset(x) == multiset(y);
    forall i | 0 <= i < |y| ensures WellFormed(y[i].tree) {
      SuccessMember(b, i);
      var k := Position(b, Some(y[i]));
    }
    AgreementReordered(x, y);
  }

  /** Whether any agreement is found does not depend on the order of arrival. */
  lemma OrderIndependent(a: Arrivals, b: Arrivals)
    requires multiset(a) == multiset(b) && AllWellFormed(a) && AllWellFormed(b)
    ensures Agreement(Successes(a)) <==> Agreement(Successes(b))
  {
    if Agreement(Successes(a)) { AgreementSurvives(a, b); }
    if Agreement(Successes(b)) { AgreementSurvives(b, a); }
  }
}
