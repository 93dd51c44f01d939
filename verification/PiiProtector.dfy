/**
 Reversible masking of personal data (crates/worker/src/lib.rs, PIIProtector).

 The regular expression engine is given: a text arrives already cut into literal stretches and
 matches. `Mask` replaces each match by a typed, numbered placeholder; `Restore` walks the masking
 map in an arbitrary order and substitutes the originals back. The main result, `RoundTripIff`,
 says for which texts the two undo each other, whatever the iteration order of the map.
 */
module PiiProtector {
  import opened Basics
  import opened Decimals

  datatype PiiKind = Email | Phone | Identity | Financial

  /** A text as the pattern sees it: literal, match, literal, ..., match, literal. */
  datatype Segments =
    | Tail(lit: string)
    | Cut(lit: string, pii: string, kind: PiiKind, rest: Segments)

  /** The same text once every match has been given its placeholder. */
  datatype Slots =
    | End(lit: string)
    | Slot(lit: string, mark: string, pii: string, rest: Slots)

  // ----- Placeholder format ---------------------------------------------------------------

  function Tag(kind: PiiKind): string {
    match kind
    case Email => "MASKED_EMAIL"
    case Phone => "MASKED_PHONE"
    case Identity => "MASKED_IDENTITY"
    case Financial => "MASKED_FINANCIAL"
  }

  function Placeholder(kind: PiiKind, index: nat): string {
    "[" + Tag(kind) + "_" + Decimal(index) + "]"
  }

  predicate IsBracket(c: char) { c == '[' || c == ']' }

  /** The characters that can stand between the brackets of a placeholder. */
  predicate IsTagChar(c: char) { 'A' <= c <= 'Z' || IsDigit(c) || c == '_' }

  predicate BracketFree(s: string) { forall i :: 0 <= i < |s| ==> !IsBracket(s[i]) }

  /** The shape of every placeholder: one bracketed run of tag characters that starts with 'M'. */
  predicate IsMark(p: string) {
    && |p| >= 3
    && p[0] == '[' && p[1] == 'M' && p[|p| - 1] == ']'
    && forall i :: 0 < i < |p| - 1 ==> IsTagChar(p[i])
  }

  lemma PlaceholderIsMark(kind: PiiKind, index: nat)
    ensures IsMark(Placeholder(kind, index))
  {
    DecimalDigits(index);
    var tag := Tag(kind);
    assert forall i :: 0 <= i < |tag| ==> IsTagChar(tag[i]);
  }

  /** Different indices never share a placeholder, whatever the types of the two matches. */
  lemma PlaceholderInjective(k1: PiiKind, i1: nat, k2: PiiKind, i2: nat)
    requires Placeholder(k1, i1) == Placeholder(k2, i2)
    ensures k1 == k2 && i1 == i2
  {
    var p, q := Placeholder(k1, i1), Placeholder(k2, i2);
    assert p[8] == Tag(k1)[7] && q[8] == Tag(k2)[7];
    assert k1 == k2;
    var n := |Tag(k1)| + 2;
    assert p[n..|p| - 1] == Decimal(i1);
    assert q[n..|q| - 1] == Decimal(i2);
    DecimalInjective(i1, i2);
  }

  // ----- Masking --------------------------------------------------------------------------

  function Text(segs: Segments): string {
    match segs
    case Tail(lit) => lit
    case Cut(lit, pii, _, rest) => lit + pii + Text(rest)
  }

  function Matches(segs: Segments): nat {
    match segs
    case Tail(_) => 0
    case Cut(_, _, _, rest) => 1 + Matches(rest)
  }

  /** Placeholders in text order. `gaps[i]` counts the increments other calls make on the shared
      counter just before the i-th match takes its index. */
  function Allocate(segs: Segments, counter: nat, gaps: seq<nat>): Slots
    requires |gaps| == Matches(segs)
  {
    match segs
    case Tail(lit) => End(lit)
    case Cut(lit, pii, kind, rest) =>
      var index := (counter + gaps[0]) % U64;
      Slot(lit, Placeholder(kind, index), pii, Allocate(rest, (index + 1) % U64, gaps[1..]))
  }

  function CounterAfter(segs: Segments, counter: nat, gaps: seq<nat>): nat
    requires |gaps| == Matches(segs)
  {
    if segs.Tail? then counter
    else CounterAfter(segs.rest, ((counter + gaps[0]) % U64 + 1) % U64, gaps[1..])
  }

  function Sum(gaps: seq<nat>): nat {
    if gaps == [] then 0 else gaps[0] + Sum(gaps[1..])
  }

  function MaskedText(slots: Slots): string {
    match slots
    case End(lit) => lit
    case Slot(lit, mark, _, rest) => lit + mark + MaskedText(rest)
  }

  function Original(slots: Slots): string {
    match slots
    case End(lit) => lit
    case Slot(lit, _, pii, rest) => lit + pii + Original(rest)
  }

  /** The masking map: insertion in text order, a later insertion winning. */
  function MapOf(slots: Slots): map<string, string> {
    match slots
    case End(_) => map[]
    case Slot(_, mark, pii, rest) => map[mark := pii] + MapOf(rest)
  }

  function Marks(slots: Slots): set<string> {
    match slots
    case End(_) => {}
    case Slot(_, mark, _, rest) => {mark} + Marks(rest)
  }

  predicate DistinctMarks(slots: Slots) {
    slots.Slot? ==> slots.mark !in Marks(slots.rest) && DistinctMarks(slots.rest)
  }

  /** What the round trip needs of the slots themselves: placeholder shapes and bracket-free originals. */
  predicate Shaped(slots: Slots) {
    slots.Slot? ==> IsMark(slots.mark) && BracketFree(slots.pii) && Shaped(slots.rest)
  }

  predicate BracketFreeMatches(segs: Segments) {
    segs.Cut? ==> BracketFree(segs.pii) && BracketFreeMatches(segs.rest)
  }

  lemma {:induction false} AllocateText(segs: Segments, counter: nat, gaps: seq<nat>)
    requires |gaps| == Matches(segs)
    ensures Original(Allocate(segs, counter, gaps)) == Text(segs)
  {
    if segs.Cut? {
      AllocateText(segs.rest, ((counter + gaps[0]) % U64 + 1) % U64, gaps[1..]);
    }
  }

  lemma {:induction false} AllocateShaped(segs: Segments, counter: nat, gaps: seq<nat>)
    requires |gaps| == Matches(segs) && BracketFreeMatches(segs)
    ensures Shaped(Allocate(segs, counter, gaps))
  {
    if segs.Cut? {
      PlaceholderIsMark(segs.kind, (counter + gaps[0]) % U64);
      AllocateShaped(segs.rest, ((counter + gaps[0]) % U64 + 1) % U64, gaps[1..]);
    }
  }

  /** What the shared counter shows after `n` increments from zero. */
  lemma Wrap(n: nat) returns (shown: nat, turns: nat)
    ensures shown == n % U64 && shown < U64 && n == shown + turns * U64
  {
    shown, turns := n % U64, n / U64;
  }

  /** Every placeholder of a call carries an index at a known distance from the counter's start value. */
  lemma {:induction false} AllocateIndices(segs: Segments, counter: nat, gaps: seq<nat>, mark: string)
    returns (kind: PiiKind, index: nat, off: nat, turns: nat)
    requires |gaps| == Matches(segs)
    requires mark in Marks(Allocate(segs, counter, gaps))
    ensures off < Sum(gaps) + |gaps| && mark == Placeholder(kind, index)
    ensures index < U64 && counter + off == index + turns * U64
  {
    var first, t1 := Wrap(counter + gaps[0]);
    if mark == Placeholder(segs.kind, first) {
      kind, index, off, turns := segs.kind, first, gaps[0], t1;
    } else {
      var next, t2 := Wrap(first + 1);
      assert mark in Marks(Allocate(segs.rest, next, gaps[1..]));
      kind, index, off, turns := AllocateIndices(segs.rest, next, gaps[1..], mark);
      off, turns := gaps[0] + 1 + off, t1 + t2 + turns;
    }
  }

  /** The index just taken does not come up again before the counter has made a full turn. */
  lemma FreshMark(kind: PiiKind, index: nat, next: nat, turns: nat, segs: Segments, gaps: seq<nat>)
    requires |gaps| == Matches(segs) && Sum(gaps) + |gaps| < U64
    requires index < U64 && index + 1 == next + turns * U64
    ensures Placeholder(kind, index) !in Marks(Allocate(segs, next, gaps))
  {
    var mark := Placeholder(kind, index);
    if mark in Marks(Allocate(segs, next, gaps)) {
      var kind', other, off, more := AllocateIndices(segs, next, gaps, mark);
      PlaceholderInjective(kind, index, kind', other);
      FullTurn(off, turns + more);
    }
  }

  /** What the first match gets, and what is left for the others. */
  lemma AllocateFirst(segs: Segments, counter: nat, gaps: seq<nat>) returns (index: nat, next: nat, turns: nat)
    requires segs.Cut? && |gaps| == Matches(segs)
    ensures index < U64 && index + 1 == next + turns * U64 && Sum(gaps[1..]) + |gaps| <= Sum(gaps) + |gaps|
    ensures Allocate(segs, counter, gaps)
         == Slot(segs.lit, Placeholder(segs.kind, index), segs.pii, Allocate(segs.rest, next, gaps[1..]))
  {
    var t1;
    index, t1 := Wrap(counter + gaps[0]);
    next, turns := Wrap(index + 1);
  }

  /** One call hands out pairwise different placeholders as long as the shared counter does not make
      a full 64-bit turn during the call. */
  lemma {:induction false} AllocateDistinct(segs: Segments, counter: nat, gaps: seq<nat>)
    requires |gaps| == Matches(segs)
    requires Sum(gaps) + |gaps| <= U64
    ensures DistinctMarks(Allocate(segs, counter, gaps))
  {
    if segs.Cut? {
      var index, next, turns := AllocateFirst(segs, counter, gaps);
      AllocateDistinct(segs.rest, next, gaps[1..]);
      FreshMark(segs.kind, index, next, turns, segs.rest, gaps[1..]);
    }
  }

  lemma FullTurn(off: nat, turns: nat)
    requires off + 1 == turns * U64
    ensures off + 1 >= U64
  {
  }

  // ----- Substitution ---------------------------------------------------------------------

  /** Left-to-right replacement of the non-overlapping occurrences of `p`. */
  function ReplaceAll(s: string, p: string, m: string): string
    requires p != ""
  {
    if s == "" then ""
    else if p <= s then m + ReplaceAll(s[|p|..], p, m)
    else [s[0]] + ReplaceAll(s[1..], p, m)
  }

  /** The empty pattern matches before every character and at the end. */
  function Interleave(s: string, m: string): string {
    if s == "" then m else m + [s[0]] + Interleave(s[1..], m)
  }

  function Replace(s: string, p: string, m: string): string {
    if p == "" then Interleave(s, m) else ReplaceAll(s, p, m)
  }

  ghost predicate Occurs(p: string, s: string) {
    exists k :: 0 <= k <= |s| && p <= s[k..]
  }

  lemma OccursWithin(p: string, a: string, b: string, c: string)
    requires Occurs(p, b)
    ensures Occurs(p, a + b + c)
  {
    var k :| 0 <= k <= |b| && p <= b[k..];
    assert (a + b + c)[|a| + k..] == b[k..] + c;
  }

  lemma AbsentWithin(p: string, a: string, b: string, c: string)
    requires !Occurs(p, a + b + c)
    ensures !Occurs(p, b)
  {
    if Occurs(p, b) { OccursWithin(p, a, b, c); }
  }

  lemma AbsentFrom(p: string, s: string, k: nat)
    requires k <= |s| && !Occurs(p, s)
    ensures !Occurs(p, s[k..])
  {
    assert s[..k] + s[k..] + "" == s;
    AbsentWithin(p, s[..k], s[k..], "");
  }

  lemma {:induction false} ReplaceAbsent(s: string, p: string, m: string)
    requires p != "" && !Occurs(p, s)
    ensures ReplaceAll(s, p, m) == s
  {
    if s != "" {
      assert s[0..] == s;
      AbsentFrom(p, s, 1);
      ReplaceAbsent(s[1..], p, m);
    }
  }

  lemma PlainStart(u: string, t: string, p: string)
    requires IsMark(p) && !Occurs(p, u) && u != ""
    requires t != "" ==> t[0] == '['
    ensures !(p <= u + t)
  {
    assert u[0..] == u;
    assert t != "" ==> (u + t)[|u|] == '[';
    assert |p| <= |u| ==> (u + t)[..|p|] == u[..|p|];
  }

  /** Plain text without `p` in front of an opening bracket is copied unchanged: an occurrence that
      starts in it would have to contain that bracket. */
  lemma {:induction false} ReplacePlain(u: string, t: string, p: string, m: string)
    requires IsMark(p) && !Occurs(p, u)
    requires t != "" ==> t[0] == '['
    ensures ReplaceAll(u + t, p, m) == u + ReplaceAll(t, p, m)
  {
    if u == "" {
      assert u + t == t;
    } else {
      PlainStart(u, t, p);
      AbsentFrom(p, u, 1);
      assert (u + t)[1..] == u[1..] + t;
      ReplacePlain(u[1..], t, p, m);
    }
  }

  lemma MarksApart(p: string, q: string, t: string)
    requires IsMark(p) && IsMark(q) && p <= q + t
    ensures p == q
  {
    var s := q + t;
    assert s[|q| - 1] == ']' && s[|p| - 1] == ']';
  }

  lemma ForeignStart(q: string, k: nat, t: string, p: string)
    requires IsMark(p) && IsMark(q) && p != q && k < |q|
    ensures !(p <= q[k..] + t)
  {
    assert (q[k..] + t)[0] == q[k];
    if k == 0 && p <= q[k..] + t {
      assert q[0..] == q;
      MarksApart(p, q, t);
    }
  }

  /** A foreign placeholder, or the remainder of one, is copied unchanged. */
  lemma {:induction false} ReplaceForeign(q: string, k: nat, t: string, p: string, m: string)
    requires IsMark(p) && IsMark(q) && p != q && k <= |q|
    ensures ReplaceAll(q[k..] + t, p, m) == q[k..] + ReplaceAll(t, p, m)
    decreases |q| - k
  {
    if k == |q| {
      assert q[k..] + t == t;
    } else {
      ForeignStart(q, k, t, p);
      assert (q[k..] + t)[1..] == q[k + 1..] + t;
      ReplaceForeign(q, k + 1, t, p, m);
    }
  }

  lemma ReplaceHit(p: string, t: string, m: string)
    requires p != ""
    ensures ReplaceAll(p + t, p, m) == m + ReplaceAll(t, p, m)
  {
    assert (p + t)[|p|..] == t;
  }

  // ----- Restoring ------------------------------------------------------------------------

  predicate Distinct(order: seq<string>) {
    forall i, j :: 0 <= i < j < |order| ==> order[i] != order[j]
  }

  /** `order` lists every key of `m` exactly once: one possible iteration of the hash map. */
  ghost predicate Enumerates(order: seq<string>, m: map<string, string>) {
    && Distinct(order)
    && (forall p :: p in order <==> p in m)
  }

  function RestoreInOrder(text: string, m: map<string, string>, order: seq<string>): string
    requires forall i :: 0 <= i < |order| ==> order[i] in m
    decreases |order|
  {
    if order == [] then text
    else RestoreInOrder(Replace(text, order[0], m[order[0]]), m, order[1..])
  }

  /** The result of substituting along some enumeration of the map. */
  ghost predicate RestoredInSomeOrder(text: string, m: map<string, string>, result: string) {
    exists order :: Enumerates(order, m) && (forall i :: 0 <= i < |order| ==> order[i] in m)
                 && result == RestoreInOrder(text, m, order)
  }

  /** The text while restoring is under way: the marks in `done` are already substituted. */
  function Render(slots: Slots, done: set<string>): string {
    match slots
    case End(lit) => lit
    case Slot(lit, mark, pii, rest) =>
      lit + (if mark in done then pii else mark) + Render(rest, done)
  }

  lemma {:induction false} RenderNone(slots: Slots)
    ensures Render(slots, {}) == MaskedText(slots)
  {
    if slots.Slot? { RenderNone(slots.rest); }
  }

  lemma {:induction false} RenderAll(slots: Slots, done: set<string>)
    requires Marks(slots) <= done
    ensures Render(slots, done) == Original(slots)
  {
    if slots.Slot? { RenderAll(slots.rest, done); }
  }

  lemma {:induction false} RenderIrrelevant(slots: Slots, done: set<string>, p: string)
    requires p !in Marks(slots)
    ensures Render(slots, done + {p}) == Render(slots, done)
  {
    if slots.Slot? { RenderIrrelevant(slots.rest, done, p); }
  }

  lemma {:induction false} MapOfMarks(slots: Slots)
    ensures MapOf(slots).Keys == Marks(slots)
  {
    if slots.Slot? { MapOfMarks(slots.rest); }
  }

  /** Reading the masking map back: with distinct marks each one maps to its own original. */
  ghost predicate HasSlot(slots: Slots, p: string, m: string) {
    slots.Slot? && ((slots.mark == p && slots.pii == m) || HasSlot(slots.rest, p, m))
  }

  lemma {:induction false} MapOfSlot(slots: Slots, p: string)
    requires DistinctMarks(slots) && p in Marks(slots)
    ensures p in MapOf(slots) && HasSlot(slots, p, MapOf(slots)[p])
  {
    MapOfMarks(slots.rest);
    if p != slots.mark { MapOfSlot(slots.rest, p); }
  }

  lemma {:induction false} HasSlotMark(slots: Slots, p: string, m: string)
    requires HasSlot(slots, p, m)
    ensures p in Marks(slots)
  {
    if !(slots.mark == p && slots.pii == m) { HasSlotMark(slots.rest, p, m); }
  }

  lemma ReplaceAround(u: string, lit: string, mark: string, tail: string, p: string, m: string)
    requires IsMark(p) && IsMark(mark) && !Occurs(p, u + lit)
    ensures ReplaceAll(u + (lit + mark + tail), p, m)
         == u + (lit + (if mark == p then m else mark) + ReplaceAll(tail, p, m))
  {
    assert u + (lit + mark + tail) == (u + lit) + (mark + tail);
    ReplacePlain(u + lit, mark + tail, p, m);
    if mark == p {
      ReplaceHit(p, tail, m);
    } else {
      assert mark[0..] == mark;
      ReplaceForeign(mark, 0, tail, p, m);
    }
  }

  /** One substitution restores exactly its own slot. `u` is plain text standing in front. */
  lemma {:induction false} RestoreOne(u: string, slots: Slots, done: set<string>, p: string, m: string)
    requires Shaped(slots) && DistinctMarks(slots) && IsMark(p) && p !in done
    requires p in Marks(slots) ==> HasSlot(slots, p, m)
    requires !Occurs(p, u + Original(slots))
    ensures ReplaceAll(u + Render(slots, done), p, m) == u + Render(slots, done + {p})
    decreases slots
  {
    match slots
    case End(lit) => ReplaceAbsent(u + lit, p, m);
    case Slot(lit, mark, pii, rest) =>
      if HasSlot(rest, p, m) { HasSlotMark(rest, p, m); }
      if mark in done {
        var u' := u + lit + pii;
        assert u' + Original(rest) == u + Original(slots);
        assert u' + Render(rest, done) == u + Render(slots, done);
        assert u' + Render(rest, done + {p}) == u + Render(slots, done + {p});
        RestoreOne(u', rest, done, p, m);
      } else {
        AbsentParts(p, u, lit, pii, Original(rest));
        ReplaceAround(u, lit, mark, Render(rest, done), p, m);
        RestoreOne("", rest, done, p, m);
        assert "" + Render(rest, done) == Render(rest, done);
        assert "" + Render(rest, done + {p}) == Render(rest, done + {p});
      }
  }

  lemma AbsentParts(p: string, u: string, lit: string, pii: string, tail: string)
    requires !Occurs(p, u + (lit + pii + tail))
    ensures !Occurs(p, u + lit) && !Occurs(p, "" + tail)
  {
    assert u + (lit + pii + tail) == "" + (u + lit) + (pii + tail) == (u + lit + pii) + tail + "";
    AbsentWithin(p, "", u + lit, pii + tail);
    AbsentWithin(p, u + lit + pii, tail, "");
    assert "" + tail == tail;
  }

  /** Sufficiency, for every iteration order: from the state where `done` is restored, working off
      the remaining marks in any order ends at the original text. */
  lemma {:induction false} RestoreRest(slots: Slots, done: set<string>, order: seq<string>)
    requires Shaped(slots) && DistinctMarks(slots) && Distinct(order)
    requires forall p :: p in order ==> p in Marks(slots) && p !in done && !Occurs(p, Original(slots))
    requires Marks(slots) <= done + (set p | p in order)
    requires forall i :: 0 <= i < |order| ==> order[i] in MapOf(slots)
    ensures RestoreInOrder(Render(slots, done), MapOf(slots), order) == Original(slots)
    decreases |order|
  {
    if order == [] {
      RenderAll(slots, done);
    } else {
      var p := order[0];
      MarkShape(slots, p);
      MapOfSlot(slots, p);
      assert "" + Original(slots) == Original(slots);
      RestoreOne("", slots, done, p, MapOf(slots)[p]);
      assert "" + Render(slots, done) == Render(slots, done);
      assert "" + Render(slots, done + {p}) == Render(slots, done + {p});
      assert forall q :: q in order <==> q == p || q in order[1..];
      RestoreRest(slots, done + {p}, order[1..]);
    }
  }

  lemma {:induction false} MarkShape(slots: Slots, p: string)
    requires Shaped(slots) && p in Marks(slots)
    ensures IsMark(p)
  {
    if p != slots.mark { MarkShape(slots.rest, p); }
  }

  // ----- Necessity: counting opening brackets ----------------------------------------------

  function Opens(s: string): nat {
    if s == "" then 0 else (if s[0] == '[' then 1 else 0) + Opens(s[1..])
  }

  function Occurrences(s: string, p: string): nat {
    if s == "" then 0 else (if p <= s then 1 else 0) + Occurrences(s[1..], p)
  }

  lemma {:induction false} OpensConcat(a: string, b: string)
    ensures Opens(a + b) == Opens(a) + Opens(b)
  {
    if a == "" {
      assert a + b == b;
    } else {
      assert (a + b)[1..] == a[1..] + b;
      OpensConcat(a[1..], b);
    }
  }

  lemma {:induction false} OpensNone(s: string)
    requires forall i :: 0 <= i < |s| ==> s[i] != '['
    ensures Opens(s) == 0
  {
    if s != "" { OpensNone(s[1..]); }
  }

  lemma {:induction false} OccurrencesConcat(a: string, b: string, p: string)
    requires p != ""
    ensures Occurrences(a + b, p) >= Occurrences(a, p) + Occurrences(b, p)
  {
    if a == "" {
      assert a + b == b;
    } else {
      assert (a + b)[1..] == a[1..] + b;
      OccurrencesConcat(a[1..], b, p);
    }
  }

  lemma {:induction false} OccursCounted(s: string, p: string)
    requires p != "" && Occurs(p, s)
    ensures Occurrences(s, p) >= 1
  {
    var k :| 0 <= k <= |s| && p <= s[k..];
    if k == 0 {
      assert s[0..] == s;
    } else {
      assert s[k..] == s[1..][k - 1..];
      OccursCounted(s[1..], p);
    }
  }

  /** Inside a placeholder no placeholder starts, except at its own opening bracket. */
  lemma {:induction false} SkipMark(q: string, k: nat, t: string, p: string)
    requires IsMark(p) && IsMark(q) && 0 < k <= |q|
    ensures Occurrences(q[k..] + t, p) == Occurrences(t, p)
    decreases |q| - k
  {
    if k == |q| {
      assert q[k..] + t == t;
    } else {
      assert (q[k..] + t)[0] == q[k];
      assert (q[k..] + t)[1..] == q[k + 1..] + t;
      SkipMark(q, k + 1, t, p);
    }
  }

  lemma OccurrencesMark(q: string, t: string, p: string)
    requires IsMark(p) && IsMark(q)
    ensures Occurrences(q + t, p) == (if p == q then 1 else 0) + Occurrences(t, p)
  {
    assert (q + t)[1..] == q[1..] + t;
    SkipMark(q, 1, t, p);
    if p <= q + t { MarksApart(p, q, t); }
  }

  lemma OpensMark(q: string, t: string)
    requires IsMark(q)
    ensures Opens(q + t) == 1 + Opens(t)
  {
    OpensConcat(q, t);
    OpensNone(q[1..]);
  }

  /** Each substitution of a bracket-free original costs one opening bracket. */
  lemma {:induction false} ReplaceOpens(s: string, p: string, m: string)
    requires IsMark(p) && BracketFree(m)
    ensures Opens(ReplaceAll(s, p, m)) == Opens(s) - Occurrences(s, p)
  {
    if s != "" {
      if p <= s {
        var t := s[|p|..];
        assert s == p + t;
        OpensMark(p, t);
        OccurrencesMark(p, t, p);
        ReplaceOpens(t, p, m);
        OpensNone(m);
        OpensConcat(m, ReplaceAll(t, p, m));
      } else {
        ReplaceOpens(s[1..], p, m);
        OpensConcat([s[0]], ReplaceAll(s[1..], p, m));
        assert Opens([s[0]]) == (if s[0] == '[' then 1 else 0);
      }
    }
  }

  /** ... and never destroys an occurrence of another placeholder. */
  lemma {:induction false} ReplaceKeepsOthers(s: string, p: string, m: string, q: string)
    requires IsMark(p) && IsMark(q) && p != q
    ensures Occurrences(ReplaceAll(s, p, m), q) >= Occurrences(s, q)
    decreases |s|
  {
    if s != "" {
      if p <= s {
        var t := s[|p|..];
        assert s == p + t;
        OccurrencesMark(p, t, q);
        ReplaceKeepsOthers(t, p, m, q);
        OccurrencesConcat(m, ReplaceAll(t, p, m), q);
      } else if q <= s {
        var t := s[|q|..];
        assert s == q + t && q[0..] == q;
        OccurrencesMark(q, t, q);
        ReplaceForeign(q, 0, t, p, m);
        ReplaceKeepsOthers(t, p, m, q);
        OccurrencesMark(q, ReplaceAll(t, p, m), q);
      } else {
        ReplaceKeepsOthers(s[1..], p, m, q);
        OccurrencesConcat([s[0]], ReplaceAll(s[1..], p, m), q);
      }
    }
  }

  function TotalOccurrences(s: string, order: seq<string>): nat {
    if order == [] then 0 else Occurrences(s, order[0]) + TotalOccurrences(s, order[1..])
  }

  lemma {:induction false} ReplaceKeepsTotal(s: string, p: string, m: string, order: seq<string>)
    requires IsMark(p) && p !in order && forall q :: q in order ==> IsMark(q)
    ensures TotalOccurrences(ReplaceAll(s, p, m), order) >= TotalOccurrences(s, order)
  {
    if order != [] {
      assert order[0] in order && forall q :: q in order[1..] ==> q in order;
      ReplaceKeepsOthers(s, p, m, order[0]);
      ReplaceKeepsTotal(s, p, m, order[1..]);
    }
  }

  /** Restoring in any order spends at least one bracket per occurrence present at the start. */
  lemma {:induction false} RestoreOpens(s: string, m: map<string, string>, order: seq<string>)
    requires Distinct(order)
    requires forall i :: 0 <= i < |order| ==> order[i] in m
    requires forall q :: q in order ==> IsMark(q) && q in m && BracketFree(m[q])
    ensures Opens(RestoreInOrder(s, m, order)) + TotalOccurrences(s, order) <= Opens(s)
    decreases |order|
  {
    if order != [] {
      var p := order[0];
      assert p in order && forall q :: q in order[1..] ==> q in order;
      var s' := ReplaceAll(s, p, m[p]);
      ReplaceOpens(s, p, m[p]);
      RestoreOpens(s', m, order[1..]);
      ReplaceKeepsTotal(s, p, m[p], order[1..]);
    }
  }

  function Size(slots: Slots): nat {
    if slots.End? then 0 else 1 + Size(slots.rest)
  }

  ghost predicate InLiteral(p: string, segs: Segments) {
    Occurs(p, segs.lit) || (segs.Cut? && InLiteral(p, segs.rest))
  }

  lemma {:induction false} MaskedOpens(slots: Slots)
    requires Shaped(slots)
    ensures Opens(MaskedText(slots)) == Opens(Original(slots)) + Size(slots)
  {
    if slots.Slot? {
      var Slot(lit, mark, pii, rest) := slots;
      assert MaskedText(slots) == lit + (mark + MaskedText(rest));
      assert Original(slots) == lit + (pii + Original(rest));
      OpensConcat(lit, mark + MaskedText(rest));
      OpensMark(mark, MaskedText(rest));
      OpensConcat(lit, pii + Original(rest));
      OpensConcat(pii, Original(rest));
      OpensNone(pii);
      MaskedOpens(rest);
    }
  }

  lemma {:induction false} MaskedOccurrences(segs: Segments, counter: nat, gaps: seq<nat>, p: string)
    requires |gaps| == Matches(segs) && IsMark(p) && BracketFreeMatches(segs)
    ensures var slots := Allocate(segs, counter, gaps);
            Occurrences(MaskedText(slots), p)
              >= (if p in Marks(slots) then 1 else 0) + (if InLiteral(p, segs) then 1 else 0)
  {
    if Occurs(p, segs.lit) { OccursCounted(segs.lit, p); }
    if segs.Cut? {
      AllocateShaped(segs, counter, gaps);
      var slots := Allocate(segs, counter, gaps);
      var Slot(lit, mark, pii, rest) := slots;
      MaskedOccurrences(segs.rest, ((counter + gaps[0]) % U64 + 1) % U64, gaps[1..], p);
      assert MaskedText(slots) == lit + (mark + MaskedText(rest));
      OccurrencesConcat(lit, mark + MaskedText(rest), p);
      OccurrencesMark(mark, MaskedText(rest), p);
    }
  }

  lemma {:induction false} TotalAtLeast(s: string, order: seq<string>, extra: string)
    requires forall p :: p in order ==> Occurrences(s, p) >= 1
    requires extra in order ==> Occurrences(s, extra) >= 2
    ensures TotalOccurrences(s, order) >= |order| + (if extra in order then 1 else 0)
  {
    if order != [] {
      assert order[0] in order && forall p :: p in order <==> p == order[0] || p in order[1..];
      TotalAtLeast(s, order[1..], extra);
    }
  }

  lemma {:induction false} MarksCounted(slots: Slots)
    requires DistinctMarks(slots)
    ensures |Marks(slots)| == Size(slots)
  {
    if slots.Slot? { MarksCounted(slots.rest); }
  }

  lemma {:induction false} SetOfSeq(s: seq<string>)
    ensures |set x | x in s| <= |s|
  {
    if s != [] {
      SetOfSeq(s[1..]);
      assert (set x | x in s) == {s[0]} + (set x | x in s[1..]);
    }
  }

  // ----- Where matches can sit --------------------------------------------------------------

  /** What PII_PATTERN guarantees about its matches: an address contains '@'; a number either starts
      with a sign or parenthesis, or with a digit at a word boundary. */
  predicate Anchored(segs: Segments) {
    segs.Cut? ==> AnchoredAfter(segs.lit, segs.pii) && Anchored(segs.rest)
  }

  predicate AnchoredAfter(lit: string, pii: string) {
    || (exists i :: 0 <= i < |pii| && !IsTagChar(pii[i]))
    || (pii != "" && IsDigit(pii[0]) && (lit == "" || !IsTagChar(lit[|lit| - 1])))
  }

  lemma NoStraddle(lit: string, pii: string, tail: string, p: string, k: nat)
    requires IsMark(p) && BracketFree(pii) && pii != ""
    requires k <= |lit + pii + tail| && p <= (lit + pii + tail)[k..]
    requires k < |lit| + |pii| && |lit| < k + |p|
    ensures k < |lit| && |lit| + |pii| < k + |p|
    ensures forall i :: 0 <= i < |pii| ==> pii[i] == p[|lit| - k + i]
    ensures lit[|lit| - 1] == p[|lit| - k - 1]
  {
    var s := lit + pii + tail;
    assert forall j :: 0 <= j < |p| ==> s[k..][j] == p[j] == s[k + j];
    assert forall i :: 0 <= i < |pii| ==> s[|lit| + i] == pii[i];
    assert s[|lit| - 1] == lit[|lit| - 1];
  }

  lemma NoMatchInside(lit: string, pii: string, tail: string, p: string, k: nat)
    requires IsMark(p) && BracketFree(pii) && AnchoredAfter(lit, pii)
    requires k <= |lit + pii + tail| && p <= (lit + pii + tail)[k..]
    ensures k + |p| <= |lit| || |lit| + |pii| <= k
  {
    if k < |lit| + |pii| && |lit| < k + |p| {
      NoStraddle(lit, pii, tail, p, k);
    }
  }

  lemma OccursBefore(p: string, lit: string, rest: string, k: nat)
    requires k + |p| <= |lit| && p <= (lit + rest)[k..]
    ensures Occurs(p, lit)
  {
    assert (lit + rest)[k..] == lit[k..] + rest;
    assert p <= lit[k..];
  }

  lemma OccursAfter(p: string, head: string, tail: string, k: nat)
    requires |head| <= k <= |head + tail| && p <= (head + tail)[k..]
    ensures Occurs(p, tail)
  {
    assert (head + tail)[k..] == tail[k - |head|..];
  }

  lemma OccursAround(p: string, lit: string, pii: string, tail: string)
    requires IsMark(p) && BracketFree(pii) && AnchoredAfter(lit, pii) && Occurs(p, lit + pii + tail)
    ensures Occurs(p, lit) || Occurs(p, tail)
  {
    var k :| 0 <= k <= |lit + pii + tail| && p <= (lit + pii + tail)[k..];
    NoMatchInside(lit, pii, tail, p, k);
    if k + |p| <= |lit| {
      assert lit + pii + tail == lit + (pii + tail);
      OccursBefore(p, lit, pii + tail, k);
    } else {
      OccursAfter(p, lit + pii, tail, k);
    }
  }

  /** An occurrence of a placeholder in the text lies in a literal stretch: no match sits inside it. */
  lemma {:induction false} OccursInLiteral(p: string, segs: Segments)
    requires IsMark(p) && BracketFreeMatches(segs) && Anchored(segs)
    requires Occurs(p, Text(segs))
    ensures InLiteral(p, segs)
  {
    if segs.Cut? {
      OccursAround(p, segs.lit, segs.pii, Text(segs.rest));
      if !Occurs(p, segs.lit) { OccursInLiteral(p, segs.rest); }
    }
  }

  // ----- Round trip -------------------------------------------------------------------------

  lemma MapShape(slots: Slots)
    requires Shaped(slots) && DistinctMarks(slots)
    ensures forall p :: p in MapOf(slots) <==> p in Marks(slots)
    ensures forall p :: p in MapOf(slots) ==> IsMark(p) && BracketFree(MapOf(slots)[p])
  {
    MapOfMarks(slots);
    forall p | p in Marks(slots)
      ensures IsMark(p) && BracketFree(MapOf(slots)[p])
    {
      MarkShape(slots, p);
      MapOfSlot(slots, p);
      SlotBracketFree(slots, p, MapOf(slots)[p]);
    }
  }

  lemma {:induction false} SlotBracketFree(slots: Slots, p: string, m: string)
    requires Shaped(slots) && HasSlot(slots, p, m)
    ensures BracketFree(m)
  {
    if !(slots.mark == p && slots.pii == m) { SlotBracketFree(slots.rest, p, m); }
  }

  /** A call whose matches are bracket-free and during which the shared counter does not wrap fully. */
  ghost predicate Call(segs: Segments, gaps: seq<nat>) {
    |gaps| == Matches(segs) && Sum(gaps) + |gaps| <= U64 && BracketFreeMatches(segs)
  }

  /** Mask `segs`, then restore the result with the returned map iterated in `order`. */
  ghost function MaskThenRestore(segs: Segments, counter: nat, gaps: seq<nat>, order: seq<string>): string
    requires Call(segs, gaps)
    requires Enumerates(order, MapOf(Allocate(segs, counter, gaps)))
  {
    var slots := Allocate(segs, counter, gaps);
    AllocateShaped(segs, counter, gaps);
    AllocateDistinct(segs, counter, gaps);
    MapShape(slots);
    assert forall i :: 0 <= i < |order| ==> order[i] in order;
    RestoreInOrder(MaskedText(slots), MapOf(slots), order)
  }

  /** No placeholder handed out by the call occurs in the text itself: checkable before the call. */
  ghost predicate Unforged(segs: Segments, counter: nat, gaps: seq<nat>)
    requires |gaps| == Matches(segs)
  {
    forall p :: p in Marks(Allocate(segs, counter, gaps)) ==> !Occurs(p, Text(segs))
  }

  lemma RoundTrip(segs: Segments, counter: nat, gaps: seq<nat>, order: seq<string>)
    requires Call(segs, gaps) && Unforged(segs, counter, gaps)
    requires Enumerates(order, MapOf(Allocate(segs, counter, gaps)))
    ensures MaskThenRestore(segs, counter, gaps, order) == Text(segs)
  {
    var slots := Allocate(segs, counter, gaps);
    AllocateText(segs, counter, gaps);
    AllocateShaped(segs, counter, gaps);
    AllocateDistinct(segs, counter, gaps);
    MapShape(slots);
    RenderNone(slots);
    assert forall i :: 0 <= i < |order| ==> order[i] in order;
    RestoreRest(slots, {}, order);
  }

  /** Every placeholder occurs in the masked text, and a forged one occurs once more. */
  lemma ForgedTotal(segs: Segments, counter: nat, gaps: seq<nat>, order: seq<string>, forged: string)
    requires |gaps| == Matches(segs) && BracketFreeMatches(segs) && forged in order && InLiteral(forged, segs)
    requires forall p :: p in order ==> p in Marks(Allocate(segs, counter, gaps)) && IsMark(p)
    ensures TotalOccurrences(MaskedText(Allocate(segs, counter, gaps)), order) > |order|
  {
    var masked := MaskedText(Allocate(segs, counter, gaps));
    forall p | p in order ensures Occurrences(masked, p) >= (if p == forged then 2 else 1) {
      MaskedOccurrences(segs, counter, gaps, p);
    }
    TotalAtLeast(masked, order, forged);
  }

  lemma OrderCovers(slots: Slots, order: seq<string>)
    requires DistinctMarks(slots) && forall p :: p in Marks(slots) ==> p in order
    ensures Size(slots) <= |order|
  {
    MarksCounted(slots);
    SetOfSeq(order);
    SubsetSize(Marks(slots), set x | x in order);
  }

  lemma ForgedTextIsLost(segs: Segments, counter: nat, gaps: seq<nat>, order: seq<string>, forged: string)
    requires Call(segs, gaps)
    requires Enumerates(order, MapOf(Allocate(segs, counter, gaps)))
    requires forged in Marks(Allocate(segs, counter, gaps)) && InLiteral(forged, segs)
    ensures Opens(MaskThenRestore(segs, counter, gaps, order)) < Opens(Text(segs))
  {
    var slots := Allocate(segs, counter, gaps);
    AllocateText(segs, counter, gaps);
    AllocateShaped(segs, counter, gaps);
    AllocateDistinct(segs, counter, gaps);
    MapShape(slots);
    ForgedTotal(segs, counter, gaps, order, forged);
    assert forall i :: 0 <= i < |order| ==> order[i] in order;
    RestoreOpens(MaskedText(slots), MapOf(slots), order);
    MaskedOpens(slots);
    OrderCovers(slots, order);
  }

  /** Masking and restoring undo each other, for one iteration order and equally for every one,
      exactly when the text contains none of the placeholders the call hands out. */
  lemma RoundTripIff(segs: Segments, counter: nat, gaps: seq<nat>, order: seq<string>)
    requires Call(segs, gaps) && Anchored(segs)
    requires Enumerates(order, MapOf(Allocate(segs, counter, gaps)))
    ensures MaskThenRestore(segs, counter, gaps, order) == Text(segs) <==> Unforged(segs, counter, gaps)
  {
    if Unforged(segs, counter, gaps) {
      RoundTrip(segs, counter, gaps, order);
    } else {
      var slots := Allocate(segs, counter, gaps);
      var p :| p in Marks(slots) && Occurs(p, Text(segs));
      AllocateShaped(segs, counter, gaps);
      MarkShape(slots, p);
      OccursInLiteral(p, segs);
      ForgedTextIsLost(segs, counter, gaps, order, p);
    }
  }

  /** No text that spells, before its first match, the placeholder this match is about to get survives. */
  lemma ForgedStart(segs: Segments, counter: nat, gaps: seq<nat>, order: seq<string>, mark: string)
    requires segs.Cut? && Call(segs, gaps)
    requires Enumerates(order, MapOf(Allocate(segs, counter, gaps)))
    requires mark == Placeholder(segs.kind, (counter + gaps[0]) % U64) && segs.lit == mark
    ensures MaskThenRestore(segs, counter, gaps, order) != Text(segs)
  {
    assert mark[0..] == mark;
    ForgedTextIsLost(segs, counter, gaps, order, mark);
  }

  lemma {:induction false} RestoreAppend(text: string, m: map<string, string>, order: seq<string>, p: string)
    requires forall i :: 0 <= i < |order| ==> order[i] in m
    requires p in m
    ensures RestoreInOrder(text, m, order + [p]) == Replace(RestoreInOrder(text, m, order), p, m[p])
    decreases |order|
  {
    if order == [] {
      assert order + [p] == [p];
    } else {
      assert (order + [p])[1..] == order[1..] + [p];
      RestoreAppend(Replace(text, order[0], m[order[0]]), m, order[1..], p);
    }
  }

  lemma MaskStep(slots: Slots, masked: string, masking: map<string, string>)
    requires slots.Slot?
    ensures masking[slots.mark := slots.pii] + MapOf(slots.rest) == masking + MapOf(slots)
    ensures masked + slots.lit + slots.mark + MaskedText(slots.rest) == masked + MaskedText(slots)
  {
  }

  class PIIProtector {
    var counter: nat

    ghost predicate Valid()
      reads this
    {
      counter < U64
    }

    constructor ()
      ensures Valid() && counter == 0
    {
      counter := 0;
    }

    method Mask(segs: Segments, gaps: seq<nat>) returns (masked: string, masking: map<string, string>)
      requires Valid() && |gaps| == Matches(segs)
      modifies this
      ensures Valid() && counter == CounterAfter(segs, old(counter), gaps)
      ensures masked == MaskedText(Allocate(segs, old(counter), gaps))
      ensures masking == MapOf(Allocate(segs, old(counter), gaps))
    {
      masked, masking := "", map[];
      var rest, left := segs, gaps;
      ghost var todo := Allocate(segs, counter, gaps);
      while rest.Cut?
        invariant Valid() && |left| == Matches(rest)
        invariant todo == Allocate(rest, counter, left)
        invariant masked + MaskedText(todo) == MaskedText(Allocate(segs, old(counter), gaps))
        invariant masking + MapOf(todo) == MapOf(Allocate(segs, old(counter), gaps))
        invariant CounterAfter(rest, counter, left) == CounterAfter(segs, old(counter), gaps)
        decreases rest
      {
        var index := (counter + left[0]) % U64;
        var placeholder := Placeholder(rest.kind, index);
        MaskStep(todo, masked, masking);
        counter := (index + 1) % U64;
        masking := masking[placeholder := rest.pii];
        masked := masked + rest.lit + placeholder;
        rest, left, todo := rest.rest, left[1..], todo.rest;
      }
      masked := masked + rest.lit;
    }

    static method Restore(text: string, masking: map<string, string>) returns (result: string)
      ensures RestoredInSomeOrder(text, masking, result)
    {
      result := text;
      var left := masking.Keys;
      ghost var order: seq<string> := [];
      while left != {}
        invariant left <= masking.Keys && Distinct(order)
        invariant forall p :: p in order <==> p in masking && p !in left
        invariant forall i :: 0 <= i < |order| ==> order[i] in masking
        invariant result == RestoreInOrder(text, masking, order)
        decreases left
      {
        var placeholder :| placeholder in left;
        RestoreAppend(text, masking, order, placeholder);
        result := Replace(result, placeholder, masking[placeholder]);
        left, order := left - {placeholder}, order + [placeholder];
      }
      assert Enumerates(order, masking);
    }
  }
}
