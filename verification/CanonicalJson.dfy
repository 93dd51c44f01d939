/**
 Recursive key sorting (crates/consensus/src/tmr_consensus.rs, sort_json_keys) and the compact text
 that is hashed afterwards. `SameSortIffSameMeaning` and `SameTextIffSameMeaning` say that sorting
 yields a true canonical form.
 */
module CanonicalJson {
  import opened Json

  // ----- Key order ------------------------------------------------------------------------

  /** The order of the sorted map: lexicographic by code point. */
  predicate Less(a: string, b: string) {
    b != "" && (a == "" || a[0] < b[0] || (a[0] == b[0] && Less(a[1..], b[1..])))
  }

  lemma {:induction false} LessIrreflexive(a: string)
    ensures !Less(a, a)
  {
    if a != "" { LessIrreflexive(a[1..]); }
  }

  lemma {:induction false} LessTransitive(a: string, b: string, c: string)
    requires Less(a, b) && Less(b, c)
    ensures Less(a, c)
  {
    if a != "" && a[0] == b[0] == c[0] { LessTransitive(a[1..], b[1..], c[1..]); }
  }

  lemma {:induction false} LessTotal(a: string, b: string)
    ensures a == b || Less(a, b) || Less(b, a)
  {
    if a != "" && b != "" && a[0] == b[0] {
      LessTotal(a[1..], b[1..]);
      assert a == [a[0]] + a[1..] && b == [b[0]] + b[1..];
    }
  }

  /** Strictly increasing keys, stated between neighbours' heads and whole tails. */
  predicate Increasing(entries: seq<Entry>) {
    entries != [] ==>
      && (forall i :: 0 < i < |entries| ==> Less(entries[0].key, entries[i].key))
      && Increasing(entries[1..])
  }

  // ----- Sorting --------------------------------------------------------------------------

  /** Insertion into a sorted map; an equal key is overwritten. */
  function Insert(sorted: seq<Entry>, e: Entry): (r: seq<Entry>)
    ensures SizeOfEntries(r) <= SizeOfEntries(sorted) + 1 + Size(e.value)
  {
    if sorted == [] then [e]
    else if e.key == sorted[0].key then
      assert ([e] + sorted[1..])[1..] == sorted[1..];
      [e] + sorted[1..]
    else if Less(e.key, sorted[0].key) then
      assert ([e] + sorted)[1..] == sorted;
      [e] + sorted
    else
      var tail := Insert(sorted[1..], e);
      assert ([sorted[0]] + tail)[1..] == tail;
      [sorted[0]] + tail
  }

  lemma {:induction false} SizeOfSnoc(init: seq<Entry>, last: Entry)
    ensures SizeOfEntries(init + [last]) == SizeOfEntries(init) + 1 + Size(last.value)
  {
    if init == [] {
      assert init + [last] == [last];
    } else {
      assert (init + [last])[1..] == init[1..] + [last];
      SizeOfSnoc(init[1..], last);
    }
  }

  /** Collecting the entries into a sorted map, one after the other. */
  function Collect(entries: seq<Entry>): (r: seq<Entry>)
    ensures SizeOfEntries(r) <= SizeOfEntries(entries)
  {
    if entries == [] then []
    else
      var init, last := entries[..|entries| - 1], entries[|entries| - 1];
      SizeOfSnoc(init, last);
      assert init + [last] == entries;
      Insert(Collect(init), last)
  }

  function SortKeys(j: Json): Json
    decreases Size(j)
  {
    match j
    case Obj(entries) => Obj(SortValues(Collect(entries)))
    case Arr(items) => Arr(SortItems(items))
    case _ => j
  }

  function SortValues(entries: seq<Entry>): (r: seq<Entry>)
    ensures |r| == |entries| && forall i :: 0 <= i < |r| ==> r[i].key == entries[i].key
    decreases SizeOfEntries(entries)
  {
    if entries == [] then []
    else [Entry(entries[0].key, SortKeys(entries[0].value))] + SortValues(entries[1..])
  }

  function SortItems(items: seq<Json>): (r: seq<Json>)
    ensures |r| == |items|
    decreases SizeOfItems(items)
  {
    if items == [] then [] else [SortKeys(items[0])] + SortItems(items[1..])
  }

  // ----- Sorting keeps the meaning ----------------------------------------------------------

  lemma {:induction false} MeaningSnoc(init: seq<Entry>, last: Entry)
    ensures MeaningOfEntries(init + [last]) == MeaningOfEntries(init)[last.key := Meaning(last.value)]
  {
    if init == [] {
      assert init + [last] == [last] && [last][1..] == [];
    } else {
      assert (init + [last])[1..] == init[1..] + [last];
      MeaningSnoc(init[1..], last);
    }
  }

  lemma {:induction false} MeaningKeys(entries: seq<Entry>, k: string)
    ensures k in MeaningOfEntries(entries) <==> exists i :: 0 <= i < |entries| && entries[i].key == k
  {
    if entries != [] {
      var tail := entries[1..];
      MeaningKeys(tail, k);
      forall i | 0 <= i < |entries| && entries[i].key == k
        ensures k in MeaningOfEntries(entries)
      {
        if i > 0 { assert tail[i - 1].key == k; }
      }
      if k in MeaningOfEntries(tail) {
        var i :| 0 <= i < |tail| && tail[i].key == k;
        assert entries[i + 1].key == k;
      }
    }
  }

  lemma {:induction false} InsertKeys(sorted: seq<Entry>, e: Entry, i: nat)
    requires i < |Insert(sorted, e)|
    ensures Insert(sorted, e)[i].key == e.key || exists j :: 0 <= j < |sorted| && Insert(sorted, e)[i].key == sorted[j].key
  {
    if sorted == [] {
    } else if e.key == sorted[0].key {
      if i > 0 { assert Insert(sorted, e)[i].key == sorted[i].key; }
    } else if Less(e.key, sorted[0].key) {
      if i > 0 { assert Insert(sorted, e)[i].key == sorted[i - 1].key; }
    } else if i == 0 {
      assert Insert(sorted, e)[0].key == sorted[0].key;
    } else {
      assert Insert(sorted, e)[i] == Insert(sorted[1..], e)[i - 1];
      InsertKeys(sorted[1..], e, i - 1);
      if Insert(sorted, e)[i].key != e.key {
        var j :| 0 <= j < |sorted[1..]| && Insert(sorted[1..], e)[i - 1].key == sorted[1..][j].key;
        assert sorted[1..][j] == sorted[j + 1];
      }
    }
  }

  lemma {:induction false} InsertIncreasing(sorted: seq<Entry>, e: Entry)
    requires Increasing(sorted)
    ensures Increasing(Insert(sorted, e))
  {
    if sorted != [] {
      var r := Insert(sorted, e);
      if e.key == sorted[0].key {
        assert r[1..] == sorted[1..];
      } else if Less(e.key, sorted[0].key) {
        assert r[1..] == sorted;
        forall i | 0 < i < |r| ensures Less(r[0].key, r[i].key) {
          if i > 1 { LessTransitive(e.key, sorted[0].key, sorted[i - 1].key); }
        }
      } else {
        LessTotal(e.key, sorted[0].key);
        InsertIncreasing(sorted[1..], e);
        assert r[1..] == Insert(sorted[1..], e);
        forall i | 0 < i < |r| ensures Less(r[0].key, r[i].key) {
          InsertKeys(sorted[1..], e, i - 1);
        }
      }
    }
  }

  lemma PutAgain(h: string, v0: Value, k: string, v: Value, m: map<string, Value>)
    ensures h == k && k !in m ==> map[k := v] + m == (map[h := v0] + m)[k := v]
    ensures h != k ==> map[h := v0] + m[k := v] == (map[h := v0] + m)[k := v]
    ensures k !in m ==> map[k := v] + m == m[k := v]
  {
  }

  lemma {:induction false} InsertMeaning(sorted: seq<Entry>, e: Entry)
    requires Increasing(sorted)
    ensures MeaningOfEntries(Insert(sorted, e)) == MeaningOfEntries(sorted)[e.key := Meaning(e.value)]
  {
    if sorted == [] {
    } else {
      var head, tail := sorted[0], sorted[1..];
      PutAgain(head.key, Meaning(head.value), e.key, Meaning(e.value), MeaningOfEntries(tail));
      if e.key == head.key {
        HeadAbsent(sorted);
      } else if Less(e.key, head.key) {
        BelowAbsent(sorted, e.key);
        PutAgain(head.key, Meaning(head.value), e.key, Meaning(e.value), MeaningOfEntries(sorted));
      } else {
        InsertMeaning(tail, e);
      }
    }
  }

  /** The first key of an increasing list does not come back in the tail. */
  lemma HeadAbsent(entries: seq<Entry>)
    requires entries != [] && Increasing(entries)
    ensures entries[0].key !in MeaningOfEntries(entries[1..])
  {
    MeaningKeys(entries[1..], entries[0].key);
    LessIrreflexive(entries[0].key);
  }

  lemma BelowAbsent(entries: seq<Entry>, k: string)
    requires entries != [] && Increasing(entries) && Less(k, entries[0].key)
    ensures k !in MeaningOfEntries(entries)
  {
    MeaningKeys(entries, k);
    LessIrreflexive(k);
    forall i | 0 <= i < |entries| ensures entries[i].key != k {
      if i > 0 { LessTransitive(k, entries[0].key, entries[i].key); }
    }
  }

  lemma {:induction false} CollectCorrect(entries: seq<Entry>)
    ensures Increasing(Collect(entries))
    ensures MeaningOfEntries(Collect(entries)) == MeaningOfEntries(entries)
  {
    if entries != [] {
      var init, last := entries[..|entries| - 1], entries[|entries| - 1];
      CollectCorrect(init);
      InsertIncreasing(Collect(init), last);
      InsertMeaning(Collect(init), last);
      assert init + [last] == entries;
      MeaningSnoc(init, last);
    }
  }

  /** Sorting never changes what a tree means: no value, array position or lookup is lost. */
  lemma {:induction false} SortKeepsMeaning(j: Json)
    ensures Meaning(SortKeys(j)) == Meaning(j)
    decreases Size(j)
  {
    match j
    case Obj(entries) =>
      CollectCorrect(entries);
      SortValuesMeaning(Collect(entries));
    case Arr(items) => SortItemsMeaning(items);
    case _ =>
  }

  lemma {:induction false} SortValuesMeaning(entries: seq<Entry>)
    ensures MeaningOfEntries(SortValues(entries)) == MeaningOfEntries(entries)
    decreases SizeOfEntries(entries)
  {
    if entries != [] {
      SortKeepsMeaning(entries[0].value);
      SortValuesMeaning(entries[1..]);
      assert SortValues(entries)[1..] == SortValues(entries[1..]);
    }
  }

  lemma {:induction false} SortItemsMeaning(items: seq<Json>)
    ensures MeaningOfItems(SortItems(items)) == MeaningOfItems(items)
    decreases SizeOfItems(items)
  {
    if items != [] {
      SortKeepsMeaning(items[0]);
      SortItemsMeaning(items[1..]);
      assert SortItems(items)[1..] == SortItems(items[1..]);
    }
  }

  // ----- Sorted trees are unique ------------------------------------------------------------

  /** Every object in the tree has strictly increasing keys. */
  predicate Canonical(j: Json) {
    match j
    case Arr(items) => CanonicalItems(items)
    case Obj(entries) => Increasing(entries) && CanonicalValues(entries)
    case _ => true
  }

  predicate CanonicalItems(items: seq<Json>) {
    items != [] ==> Canonical(items[0]) && CanonicalItems(items[1..])
  }

  predicate CanonicalValues(entries: seq<Entry>) {
    entries != [] ==> Canonical(entries[0].value) && CanonicalValues(entries[1..])
  }

  lemma {:induction false} SortIsCanonical(j: Json)
    ensures Canonical(SortKeys(j))
    decreases Size(j)
  {
    match j
    case Obj(entries) =>
      CollectCorrect(entries);
      SortValuesCanonical(Collect(entries));
    case Arr(items) => SortItemsCanonical(items);
    case _ =>
  }

  lemma {:induction false} SortValuesCanonical(entries: seq<Entry>)
    ensures CanonicalValues(SortValues(entries))
    ensures Increasing(entries) ==> Increasing(SortValues(entries))
    decreases SizeOfEntries(entries)
  {
    if entries != [] {
      SortIsCanonical(entries[0].value);
      SortValuesCanonical(entries[1..]);
      assert SortValues(entries)[1..] == SortValues(entries[1..]);
    }
  }

  lemma {:induction false} SortItemsCanonical(items: seq<Json>)
    ensures CanonicalItems(SortItems(items))
    decreases SizeOfItems(items)
  {
    if items != [] {
      SortIsCanonical(items[0]);
      SortItemsCanonical(items[1..]);
      assert SortItems(items)[1..] == SortItems(items[1..]);
    }
  }

  lemma {:induction false} CanonicalUnique(a: Json, b: Json)
    requires Canonical(a) && Canonical(b) && Meaning(a) == Meaning(b)
    ensures a == b
    decreases a
  {
    match a
    case Arr(items) => CanonicalItemsUnique(items, b.items);
    case Obj(entries) => CanonicalEntriesUnique(entries, b.entries);
    case _ =>
  }

  lemma {:induction false} CanonicalItemsUnique(a: seq<Json>, b: seq<Json>)
    requires CanonicalItems(a) && CanonicalItems(b) && MeaningOfItems(a) == MeaningOfItems(b)
    ensures a == b
    decreases a
  {
    if a != [] {
      var va, vb := MeaningOfItems(a), MeaningOfItems(b);
      assert va[0] == vb[0] && va[1..] == vb[1..];
      CanonicalUnique(a[0], b[0]);
      CanonicalItemsUnique(a[1..], b[1..]);
      assert a == [a[0]] + a[1..] && b == [b[0]] + b[1..];
    }
  }

  /** Two increasing lists with the same map start with the same key: the least one. */
  lemma SameHead(a: seq<Entry>, b: seq<Entry>)
    requires Increasing(a) && Increasing(b) && a != [] && b != []
    requires MeaningOfEntries(a) == MeaningOfEntries(b)
    ensures a[0].key == b[0].key
  {
    LessTotal(a[0].key, b[0].key);
    MeaningKeys(a, a[0].key);
    MeaningKeys(b, b[0].key);
    if Less(a[0].key, b[0].key) { BelowAbsent(b, a[0].key); }
    if Less(b[0].key, a[0].key) { BelowAbsent(a, b[0].key); }
  }

  lemma {:induction false} CanonicalEntriesUnique(a: seq<Entry>, b: seq<Entry>)
    requires Increasing(a) && Increasing(b) && CanonicalValues(a) && CanonicalValues(b)
    requires MeaningOfEntries(a) == MeaningOfEntries(b)
    ensures a == b
    decreases a
  {
    if a == [] {
      if b != [] { MeaningKeys(b, b[0].key); }
    } else if b == [] {
      MeaningKeys(a, a[0].key);
    } else {
      SameHead(a, b);
      TailMeaning(a);
      TailMeaning(b);
      CanonicalUnique(a[0].value, b[0].value);
      CanonicalEntriesUnique(a[1..], b[1..]);
      assert a == [a[0]] + a[1..] && b == [b[0]] + b[1..];
    }
  }

  lemma TailMeaning(entries: seq<Entry>)
    requires entries != [] && Increasing(entries)
    ensures entries[0].key in MeaningOfEntries(entries)
    ensures MeaningOfEntries(entries)[entries[0].key] == Meaning(entries[0].value)
    ensures MeaningOfEntries(entries[1..]) == MeaningOfEntries(entries) - {entries[0].key}
  {
    HeadAbsent(entries);
  }

  // ----- Main results -----------------------------------------------------------------------

  /** The sorted tree is a complete invariant of the meaning. */
  lemma SameSortIffSameMeaning(a: Json, b: Json)
    ensures SortKeys(a) == SortKeys(b) <==> Meaning(a) == Meaning(b)
  {
    SortKeepsMeaning(a);
    SortKeepsMeaning(b);
    if Meaning(a) == Meaning(b) {
      SortIsCanonical(a);
      SortIsCanonical(b);
      CanonicalUnique(SortKeys(a), SortKeys(b));
    }
  }

  /** Exactly the sorted trees are left alone; in particular sorting twice is sorting once. */
  lemma SortFixesExactlyCanonical(j: Json)
    ensures SortKeys(j) == j <==> Canonical(j)
    ensures SortKeys(SortKeys(j)) == SortKeys(j)
  {
    SortKeepsMeaning(j);
    SortIsCanonical(j);
    if Canonical(j) { CanonicalUnique(SortKeys(j), j); }
    SortKeepsMeaning(SortKeys(j));
    SortIsCanonical(SortKeys(j));
    CanonicalUnique(SortKeys(SortKeys(j)), SortKeys(j));
  }

  // ----- The compact text --------------------------------------------------------------------

  function Hex(d: nat): char
    requires d < 16
  {
    "0123456789abcdef"[d]
  }

  /** The letter after the backslash; a blank where the character is written as it is. */
  function Letter(c: char): char {
    if c == '"' || c == '\\' then c
    else if c == '\U{08}' then 'b'
    else if c == '\t' then 't'
    else if c == '\n' then 'n'
    else if c == '\U{0C}' then 'f'
    else if c == '\r' then 'r'
    else if c < ' ' then 'u'
    else ' '
  }

  function EscapeChar(c: char): string {
    if Letter(c) == ' ' then [c]
    else if Letter(c) != 'u' then ['\\', Letter(c)]
    else ['\\', 'u', '0', '0', Hex(c as int / 16), Hex(c as int % 16)]
  }

  /** The rest of a string literal, its closing quote, and whatever text comes `after`. */
  function EmitChars(s: string, after: string): string {
    if s == "" then "\"" + after else EscapeChar(s[0]) + EmitChars(s[1..], after)
  }

  /** The compact serialisation of `j` followed by the text `after`; `number` renders numbers. */
  function Emit(j: Json, number: Number -> string, after: string): string
    decreases j, 0
  {
    match j
    case Null => "null" + after
    case Bool(b) => (if b then "true" else "false") + after
    case Num(n) => number(n) + after
    case Str(s) => "\"" + EmitChars(s, after)
    case Arr(items) =>
      if items == [] then "[]" + after
      else "[" + Emit(items[0], number, EmitItems(items[1..], number, after))
    case Obj(entries) =>
      if entries == [] then "{}" + after
      else "{" + EmitEntry(entries[0], number, EmitEntries(entries[1..], number, after))
  }

  function EmitItems(items: seq<Json>, number: Number -> string, after: string): string
    decreases items
  {
    if items == [] then "]" + after
    else "," + Emit(items[0], number, EmitItems(items[1..], number, after))
  }

  function EmitEntry(e: Entry, number: Number -> string, after: string): string
    decreases e, 1
  {
    "\"" + EmitChars(e.key, ":" + Emit(e.value, number, after))
  }

  function EmitEntries(entries: seq<Entry>, number: Number -> string, after: string): string
    decreases entries
  {
    if entries == [] then "}" + after
    else "," + EmitEntry(entries[0], number, EmitEntries(entries[1..], number, after))
  }

  function CanonicalText(j: Json, number: Number -> string): string {
    Emit(SortKeys(j), number, "")
  }

  predicate IsNumeric(c: char) { '0' <= c <= '9' || c == '-' || c == '+' || c == '.' || c == 'e' || c == 'E' }

  /** Numbers are rendered faithfully: numeric characters only, starting with a digit or a sign. */
  ghost predicate FaithfulNumbers(number: Number -> string) {
    && (forall n :: number(n) != "" && ('0' <= number(n)[0] <= '9' || number(n)[0] == '-'))
    && (forall n :: forall i :: 0 <= i < |number(n)| ==> IsNumeric(number(n)[i]))
    && (forall n, m :: number(n) == number(m) ==> n == m)
  }

  /** Text that may follow a value. */
  predicate Stop(after: string) {
    after == "" || after[0] == ',' || after[0] == ']' || after[0] == '}'
  }

  lemma EscapeUnicode(c: char, d: char)
    requires Letter(c) == Letter(d) == 'u'
    requires Hex(c as int / 16) == Hex(d as int / 16) && Hex(c as int % 16) == Hex(d as int % 16)
    ensures c == d
  {
  }

  lemma EscapeCharDecodes(c: char, d: char, x: string, y: string)
    requires EscapeChar(c) + x == EscapeChar(d) + y
    ensures c == d && x == y
  {
    var e, f := EscapeChar(c), EscapeChar(d);
    var p, q := e + x, f + y;
    assert p[0] == e[0] && q[0] == f[0];
    assert |e| > 1 ==> p[1] == e[1] == Letter(c);
    assert |f| > 1 ==> q[1] == f[1] == Letter(d);
    assert |e| == |f|;
    assert p[..|e|] == e && q[..|f|] == f;
    if Letter(c) == 'u' {
      assert e[4] == f[4] && e[5] == f[5];
      EscapeUnicode(c, d);
    }
    assert p[|e|..] == x && q[|f|..] == y;
  }

  lemma EmitCharsHead(s: string, after: string)
    ensures EmitChars(s, after) != ""
    ensures EmitChars(s, after)[0] == '"' <==> s == ""
  {
    if s != "" { assert EmitChars(s, after)[0] == EscapeChar(s[0])[0]; }
  }

  lemma {:induction false} EmitCharsDecodes(s: string, t: string, x: string, y: string)
    requires EmitChars(s, x) == EmitChars(t, y)
    ensures s == t && x == y
  {
    EmitCharsHead(s, x);
    EmitCharsHead(t, y);
    if s == "" {
      DropPrefix("\"", x, y);
    } else {
      EscapeCharDecodes(s[0], t[0], EmitChars(s[1..], x), EmitChars(t[1..], y));
      EmitCharsDecodes(s[1..], t[1..], x, y);
      assert s == [s[0]] + s[1..] && t == [t[0]] + t[1..];
    }
  }

  lemma NumberSpan(u: string, x: string)
    requires Stop(x) && forall i :: 0 <= i < |u| ==> IsNumeric(u[i])
    ensures forall i :: 0 <= i < |u| ==> IsNumeric((u + x)[i])
    ensures x != "" ==> !IsNumeric((u + x)[|u|])
    ensures (u + x)[..|u|] == u && (u + x)[|u|..] == x
  {
  }

  lemma NumbersDecode(u: string, v: string, x: string, y: string)
    requires u + x == v + y && Stop(x) && Stop(y)
    requires forall i :: 0 <= i < |u| ==> IsNumeric(u[i])
    requires forall i :: 0 <= i < |v| ==> IsNumeric(v[i])
    ensures u == v && x == y
  {
    NumberSpan(u, x);
    NumberSpan(v, y);
  }

  /** The first character of a serialised value, or a class of them, tells its constructor. */
  function Opening(j: Json): char {
    match j
    case Null => 'n'
    case Bool(b) => if b then 't' else 'f'
    case Num(_) => '0'
    case Str(_) => '"'
    case Arr(_) => '['
    case Obj(_) => '{'
  }

  function Class(c: char): char {
    if '0' <= c <= '9' || c == '-' then '0' else c
  }

  lemma EmitOpens(j: Json, number: Number -> string, after: string)
    requires FaithfulNumbers(number)
    ensures Emit(j, number, after) != ""
    ensures Class(Emit(j, number, after)[0]) == Opening(j)
  {
    if j.Num? { assert Emit(j, number, after)[0] == number(j.n)[0]; }
  }

  lemma DropPrefix(p: string, x: string, y: string)
    requires p + x == p + y
    ensures x == y
  {
    assert (p + x)[|p|..] == x && (p + y)[|p|..] == y;
  }

  /** Serialisation is uniquely decodable. */
  lemma {:induction false} EmitDecodes(a: Json, b: Json, number: Number -> string, x: string, y: string)
    requires FaithfulNumbers(number) && Stop(x) && Stop(y)
    requires Emit(a, number, x) == Emit(b, number, y)
    ensures a == b && x == y
    decreases a, 0
  {
    EmitOpens(a, number, x);
    EmitOpens(b, number, y);
    match a
    case Null => DropPrefix("null", x, y);
    case Bool(v) => DropPrefix(if v then "true" else "false", x, y);
    case Num(n) => NumbersDecode(number(n), number(b.n), x, y);
    case Str(s) =>
      DropPrefix("\"", EmitChars(s, x), EmitChars(b.s, y));
      EmitCharsDecodes(s, b.s, x, y);
    case Arr(items) => EmitArrayDecodes(items, b.items, number, x, y);
    case Obj(entries) => EmitObjectDecodes(entries, b.entries, number, x, y);
  }

  lemma {:induction false} EmitArrayDecodes(a: seq<Json>, b: seq<Json>, number: Number -> string, x: string, y: string)
    requires FaithfulNumbers(number) && Stop(x) && Stop(y)
    requires Emit(Arr(a), number, x) == Emit(Arr(b), number, y)
    ensures a == b && x == y
    decreases a, 1
  {
    ArrayHead(a, number, x);
    ArrayHead(b, number, y);
    if a == [] {
      DropPrefix("[]", x, y);
    } else {
      var x', y' := EmitItems(a[1..], number, x), EmitItems(b[1..], number, y);
      DropPrefix("[", Emit(a[0], number, x'), Emit(b[0], number, y'));
      EmitDecodes(a[0], b[0], number, x', y');
      EmitItemsDecodes(a[1..], b[1..], number, x, y);
      assert a == [a[0]] + a[1..] && b == [b[0]] + b[1..];
    }
  }

  lemma ArrayHead(items: seq<Json>, number: Number -> string, after: string)
    requires FaithfulNumbers(number)
    ensures |Emit(Arr(items), number, after)| > 1
    ensures Emit(Arr(items), number, after)[1] == ']' <==> items == []
  {
    if items != [] {
      var rest := EmitItems(items[1..], number, after);
      EmitOpens(items[0], number, rest);
      assert Emit(Arr(items), number, after)[1] == Emit(items[0], number, rest)[0];
    }
  }

  lemma {:induction false} EmitItemsDecodes(a: seq<Json>, b: seq<Json>, number: Number -> string, x: string, y: string)
    requires FaithfulNumbers(number) && Stop(x) && Stop(y)
    requires EmitItems(a, number, x) == EmitItems(b, number, y)
    ensures a == b && x == y
    decreases a, 0
  {
    assert EmitItems(a, number, x)[0] == EmitItems(b, number, y)[0];
    if a == [] {
      DropPrefix("]", x, y);
    } else {
      var x', y' := EmitItems(a[1..], number, x), EmitItems(b[1..], number, y);
      DropPrefix(",", Emit(a[0], number, x'), Emit(b[0], number, y'));
      EmitDecodes(a[0], b[0], number, x', y');
      EmitItemsDecodes(a[1..], b[1..], number, x, y);
      assert a == [a[0]] + a[1..] && b == [b[0]] + b[1..];
    }
  }

  lemma {:induction false} EmitEntryDecodes(a: Entry, b: Entry, number: Number -> string, x: string, y: string)
    requires FaithfulNumbers(number) && Stop(x) && Stop(y)
    requires EmitEntry(a, number, x) == EmitEntry(b, number, y)
    ensures a == b && x == y
    decreases a, 1
  {
    var va, vb := Emit(a.value, number, x), Emit(b.value, number, y);
    DropPrefix("\"", EmitChars(a.key, ":" + va), EmitChars(b.key, ":" + vb));
    EmitCharsDecodes(a.key, b.key, ":" + va, ":" + vb);
    DropPrefix(":", va, vb);
    EmitDecodes(a.value, b.value, number, x, y);
  }

  lemma {:induction false} EmitObjectDecodes(a: seq<Entry>, b: seq<Entry>, number: Number -> string, x: string, y: string)
    requires FaithfulNumbers(number) && Stop(x) && Stop(y)
    requires Emit(Obj(a), number, x) == Emit(Obj(b), number, y)
    ensures a == b && x == y
    decreases a, 1
  {
    assert Emit(Obj(a), number, x)[1] == (if a == [] then '}' else '"');
    assert Emit(Obj(b), number, y)[1] == (if b == [] then '}' else '"');
    if a == [] {
      DropPrefix("{}", x, y);
    } else {
      var x', y' := EmitEntries(a[1..], number, x), EmitEntries(b[1..], number, y);
      DropPrefix("{", EmitEntry(a[0], number, x'), EmitEntry(b[0], number, y'));
      EmitEntryDecodes(a[0], b[0], number, x', y');
      EmitEntriesDecodes(a[1..], b[1..], number, x, y);
      assert a == [a[0]] + a[1..] && b == [b[0]] + b[1..];
    }
  }

  lemma {:induction false} EmitEntriesDecodes(a: seq<Entry>, b: seq<Entry>, number: Number -> string, x: string, y: string)
    requires FaithfulNumbers(number) && Stop(x) && Stop(y)
    requires EmitEntries(a, number, x) == EmitEntries(b, number, y)
    ensures a == b && x == y
    decreases a, 0
  {
    assert EmitEntries(a, number, x)[0] == EmitEntries(b, number, y)[0];
    if a == [] {
      DropPrefix("}", x, y);
    } else {
      var x', y' := EmitEntries(a[1..], number, x), EmitEntries(b[1..], number, y);
      DropPrefix(",", EmitEntry(a[0], number, x'), EmitEntry(b[0], number, y'));
      EmitEntryDecodes(a[0], b[0], number, x', y');
      EmitEntriesDecodes(a[1..], b[1..], number, x, y);
      assert a == [a[0]] + a[1..] && b == [b[0]] + b[1..];
    }
  }

  /** The text that is hashed is the same for two trees exactly when they mean the same. */
  lemma SameTextIffSameMeaning(a: Json, b: Json, number: Number -> string)
    requires FaithfulNumbers(number)
    ensures CanonicalText(a, number) == CanonicalText(b, number) <==> Meaning(a) == Meaning(b)
  {
    SameSortIffSameMeaning(a, b);
    if CanonicalText(a, number) == CanonicalText(b, number) {
      EmitDecodes(SortKeys(a), SortKeys(b), number, "", "");
    }
  }
}
