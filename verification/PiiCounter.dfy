/**
 Which placeholders a call hands out (crates/worker/src/lib.rs, PIIProtector::mask): the type of each match, and an
 index from a counter that all calls share and that wraps.
 */
module PiiCounter {
  import opened Basics
  import opened PiiProtector

  /** The type of the `n`-th match, the placeholder of the `n`-th slot. */
  function KindAt(segs: Segments, n: nat): PiiKind
    requires n < Matches(segs)
  {
    if n == 0 then segs.kind else KindAt(segs.rest, n - 1)
  }

  function Slotted(slots: Slots): nat { if slots.End? then 0 else 1 + Slotted(slots.rest) }

  function MarkAt(slots: Slots, n: nat): string
    requires n < Slotted(slots)
  {
    if n == 0 then slots.mark else MarkAt(slots.rest, n - 1)
  }

  /** The increments before the `n`-th match takes its index: those of other calls and one for each earlier match. */
  function Increments(gaps: seq<nat>, n: nat): nat
    requires n < |gaps|
  {
    if n == 0 then gaps[0] else gaps[0] + 1 + Increments(gaps[1..], n - 1)
  }

  lemma Remainder(n: nat, q: nat, p: nat)
    requires n == q * U64 + p && p < U64
    ensures n % U64 == p
  {
  }

  lemma SameRemainder(a: nat, b: nat, turns: nat)
    requires a == b + turns * U64
    ensures a % U64 == b % U64
  {
    Remainder(a, b / U64 + turns, b % U64);
  }

  /** The counter after one more match. */
  function After(counter: nat, gap: nat): nat { ((counter + gap) % U64 + 1) % U64 }

  lemma NextCounter(counter: nat, gap: nat, more: nat)
    ensures (After(counter, gap) + more) % U64 == (counter + (gap + 1 + more)) % U64
  {
    var first, t1 := Wrap(counter + gap);
    var next, t2 := Wrap(first + 1);
    SameRemainder(counter + (gap + 1 + more), next + more, t1 + t2);
  }

  /** The index the counter shows after all increments before the `n`-th match. */
  function IndexAt(counter: nat, gaps: seq<nat>, n: nat): nat
    requires n < |gaps|
  {
    (counter + Increments(gaps, n)) % U64
  }

  /** The `n`-th slot carries this placeholder. */
  predicate Marked(slots: Slots, n: nat, mark: string) { n < Slotted(slots) && MarkAt(slots, n) == mark }

  lemma MarkedLater(segs: Segments, counter: nat, gaps: seq<nat>, n: nat, mark: string)
    requires |gaps| == Matches(segs) && 0 < n < |gaps|
    requires Marked(Allocate(segs.rest, After(counter, gaps[0]), gaps[1..]), n - 1, mark)
    ensures Marked(Allocate(segs, counter, gaps), n, mark)
  {
  }

  /** The `n`-th placeholder names the type of the `n`-th match and carries that index. */
  lemma {:induction false} PlaceholderAt(segs: Segments, counter: nat, gaps: seq<nat>, n: nat)
    requires |gaps| == Matches(segs) && n < |gaps|
    ensures Marked(Allocate(segs, counter, gaps), n, Placeholder(KindAt(segs, n), IndexAt(counter, gaps, n)))
    decreases n
  {
    if n > 0 {
      var next := After(counter, gaps[0]);
      PlaceholderAt(segs.rest, next, gaps[1..], n - 1);
      NextCounter(counter, gaps[0], Increments(gaps[1..], n - 1));
      assert IndexAt(next, gaps[1..], n - 1) == IndexAt(counter, gaps, n);
      MarkedLater(segs, counter, gaps, n, Placeholder(KindAt(segs, n), IndexAt(counter, gaps, n)));
    }
  }

  /** After a call the counter shows all increments, its own and those of other calls. */
  lemma {:induction false} CounterAdvances(segs: Segments, counter: nat, gaps: seq<nat>)
    requires |gaps| == Matches(segs) && counter < U64
    ensures CounterAfter(segs, counter, gaps) == (counter + Sum(gaps) + |gaps|) % U64
  {
    if segs.Cut? {
      CounterAdvances(segs.rest, After(counter, gaps[0]), gaps[1..]);
      NextCounter(counter, gaps[0], Sum(gaps[1..]) + |gaps| - 1);
    }
  }

  lemma NoFullTurn(low: nat, high: nat, index: nat, t1: nat, t2: nat)
    requires low == index + t1 * U64 && high == index + t2 * U64 && low < high
    ensures high - low >= U64
  {
  }

  /** Successive calls hand out different placeholders, whatever `between` increments others make meanwhile, as
      long as the counter makes no full turn. */
  lemma CallsApart(a: Segments, b: Segments, counter: nat, ga: seq<nat>, between: nat, gb: seq<nat>)
    requires |ga| == Matches(a) && |gb| == Matches(b) && counter < U64
    requires Sum(ga) + |ga| + between + Sum(gb) + |gb| <= U64
    ensures Marks(Allocate(a, counter, ga)) !! Marks(Allocate(b, (CounterAfter(a, counter, ga) + between) % U64, gb))
  {
    CounterAdvances(a, counter, ga);
    var after, t0 := Wrap(counter + Sum(ga) + |ga|);
    var later, t1 := Wrap(after + between);
    assert later == (CounterAfter(a, counter, ga) + between) % U64;
    forall mark | mark in Marks(Allocate(a, counter, ga)) ensures mark !in Marks(Allocate(b, later, gb)) {
      var kind, index, off, turns := AllocateIndices(a, counter, ga, mark);
      if mark in Marks(Allocate(b, later, gb)) {
        var kind', index', off', turns' := AllocateIndices(b, later, gb, mark);
        PlaceholderInjective(kind, index, kind', index');
        NoFullTurn(counter + off, counter + Sum(ga) + |ga| + between + off', index, turns, turns' + t0 + t1);
        assert false;
      }
    }
  }
}
