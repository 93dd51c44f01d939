/**
 Replay detection (crates/core/src/security/hmac_auth.rs, NonceCache::check_and_insert).

 The cache forgets expired nonces now and then and, when full, everything but the newest quarter.
 The main results compare it with a plain history of accepted nonces over whole runs.
 */
module NonceCache {
  import opened Basics

  const NONCE_TTL_SECS: int := 300
  const NONCE_CACHE_MAX_CAPACITY: nat := 100_000
  const CLEANUP_INTERVAL: nat := 64

  /** How many entries a forced eviction leaves in a full cache. */
  const SURVIVORS: nat := NONCE_CACHE_MAX_CAPACITY - NONCE_CACHE_MAX_CAPACITY * 3 / 4

  datatype Cache = Cache(entries: map<string, real>, insertCount: nat)

  /** Age in whole seconds below the time to live. */
  predicate Live(insertedAt: real, now: real) { (now - insertedAt).Floor < NONCE_TTL_SECS }

  function Purge(entries: map<string, real>, now: real): map<string, real> {
    map n | n in entries && Live(entries[n], now) :: entries[n]
  }

  /** `kept` holds `size` of the entries and nothing dropped is younger than anything kept. */
  ghost predicate KeepsNewest(entries: map<string, real>, kept: map<string, real>, size: nat) {
    && kept.Keys <= entries.Keys && |kept| == size
    && (forall n :: n in kept ==> kept[n] == entries[n])
    && (forall n, d :: n in kept && d in entries && d !in kept ==> entries[d] <= entries[n])
  }

  /** What the map looks like just before the insertion. */
  ghost predicate Evicted(entries: map<string, real>, after: map<string, real>) {
    if |entries| >= NONCE_CACHE_MAX_CAPACITY
    then KeepsNewest(entries, after, |entries| - |entries| * 3 / 4)
    else after == entries
  }

  /** One call. `purge` says whether expired entries are swept out on this call. */
  ghost predicate Step(c: Cache, nonce: string, now: real, purge: bool, c': Cache, accepted: bool) {
    if nonce in c.entries && Live(c.entries[nonce], now) then !accepted && c' == c
    else
      && accepted && c'.insertCount == c.insertCount + 1
      && Inserted(if purge then Purge(c.entries, now) else c.entries, nonce, now, c'.entries)
  }

  ghost predicate Inserted(swept: map<string, real>, nonce: string, now: real, entries: map<string, real>) {
    exists after :: Evicted(swept, after) && entries == after[nonce := now]
  }

  // ----- The cache object ---------------------------------------------------------------------

  lemma {:induction false} OldestExists(m: map<string, real>) returns (oldest: string)
    requires m != map[]
    ensures oldest in m && forall n :: n in m ==> m[oldest] <= m[n]
    decreases |m|
  {
    var k :| k in m;
    var rest := m - {k};
    assert forall n :: n in m ==> n == k || n in rest;
    if rest == map[] {
      oldest := k;
    } else {
      assert |rest| < |m| by { assert rest.Keys == m.Keys - {k}; }
      var other := OldestExists(rest);
      oldest := if m[other] < m[k] then other else k;
    }
  }

  /** Sorting by insertion time and skipping `cutoff` entries: the oldest go first. */
  method SkipOldest(entries: map<string, real>, cutoff: nat) returns (kept: map<string, real>)
    requires cutoff <= |entries|
    ensures KeepsNewest(entries, kept, |entries| - cutoff)
  {
    kept := entries;
    for i := 0 to cutoff
      invariant KeepsNewest(entries, kept, |entries| - i)
    {
      ghost var some := OldestExists(kept);
      var oldest :| oldest in kept && forall n :: n in kept ==> kept[oldest] <= kept[n];
      var next := kept - {oldest};
      assert next.Keys == kept.Keys - {oldest};
      kept := next;
    }
  }

  class NonceCacheInner {
    var entries: map<string, real>
    var insertCount: nat

    function View(): Cache
      reads this
    {
      Cache(entries, insertCount)
    }

    constructor ()
      ensures View() == Cache(map[], 0)
    {
      entries, insertCount := map[], 0;
    }

    method CheckAndInsert(nonce: string, now: real) returns (accepted: bool)
      modifies this
      ensures Step(old(View()), nonce, now, (old(insertCount) + 1) % CLEANUP_INTERVAL == 0, View(), accepted)
    {
      if nonce in entries && Live(entries[nonce], now) { return false; }
      insertCount := insertCount + 1;
      if insertCount % CLEANUP_INTERVAL == 0 {
        entries := Purge(entries, now);
      }
      ghost var before := entries;
      if |entries| >= NONCE_CACHE_MAX_CAPACITY {
        entries := SkipOldest(entries, |entries| * 3 / 4);
      }
      assert Evicted(before, entries);
      entries := entries[nonce := now];
      accepted := true;
    }
  }

  // ----- Runs ---------------------------------------------------------------------------------

  datatype Request = Request(nonce: string, time: real)

  /** A run under an arbitrary sweeping schedule, on a clock that never goes back. */
  datatype Run = Run(trace: seq<Request>, purges: seq<bool>, caches: seq<Cache>, answers: seq<bool>) {
    predicate Sized() { |purges| == |answers| == |trace| && |caches| == |trace| + 1 }

    ghost predicate Valid() {
      && Sized()
      && caches[0] == Cache(map[], 0)
      && (forall i, j :: 0 <= i < j < |trace| ==> trace[i].time <= trace[j].time)
      && (forall i :: 0 <= i < |trace| ==> StepAt(i))
    }

    ghost predicate StepAt(i: int)
      requires Sized() && 0 <= i < |trace|
    {
      Step(caches[i], trace[i].nonce, trace[i].time, purges[i], caches[i + 1], answers[i])
    }

    /** The other nonces accepted before request `j` and no earlier than at the time of request `i`. */
    ghost function Others(i: int, j: int): set<string>
      requires 0 <= i < |trace| && j <= |trace| == |answers|
    {
      set k | 0 <= k < j && answers[k] && trace[k].nonce != trace[i].nonce && trace[k].time >= trace[i].time
        :: trace[k].nonce
    }
  }

  /** The cached time of an entry is the time of an accepted request for it. */
  ghost predicate Backed(r: Run, m: int, n: string)
    requires r.Sized() && 0 <= m <= |r.trace|
  {
    n in r.caches[m].entries
    && exists i :: 0 <= i < m && r.answers[i] && r.trace[i] == Request(n, r.caches[m].entries[n])
  }

  /** Accepted request `i` is still covered, has expired, or was crowded out. */
  ghost predicate Remembered(r: Run, m: int, i: int)
    requires r.Sized() && 0 <= i < m <= |r.trace|
  {
    var n, entries := r.trace[i].nonce, r.caches[m].entries;
    || (n in entries && entries[n] >= r.trace[i].time)
    || r.trace[m - 1].time - r.trace[i].time >= 300.0
    || |r.Others(i, m)| > SURVIVORS
  }

  ghost predicate AllBacked(r: Run, m: int)
    requires r.Sized() && 0 <= m <= |r.trace|
  {
    forall n {:trigger Backed(r, m, n)} :: n in r.caches[m].entries ==> Backed(r, m, n)
  }

  ghost predicate AllRemembered(r: Run, m: int)
    requires r.Sized() && 0 <= m <= |r.trace|
  {
    forall i {:trigger Remembered(r, m, i)} :: 0 <= i < m && r.answers[i] ==> Remembered(r, m, i)
  }

  ghost predicate Invariant(r: Run, m: int)
    requires r.Sized() && 0 <= m <= |r.trace|
  {
    |r.caches[m].entries| <= NONCE_CACHE_MAX_CAPACITY && AllBacked(r, m)
  }

  lemma OthersGrow(r: Run, i: int, m: int)
    requires 0 <= i < m < |r.trace| == |r.answers|
    ensures |r.Others(i, m)| <= |r.Others(i, m + 1)|
  {
    SubsetSize(r.Others(i, m), r.Others(i, m + 1));
  }

  /** How the map of an accepted request comes about: expired entries may be swept out, then the
      oldest may be evicted, then the nonce goes in. */
  ghost predicate Accepts(c: map<string, real>, swept: map<string, real>, after: map<string, real>, now: real) {
    && swept.Keys <= c.Keys && after.Keys <= swept.Keys
    && (forall n :: n in swept ==> swept[n] == c[n])
    && (forall n :: n in c && n !in swept ==> now - c[n] >= 300.0)
    && (forall n :: n in after ==> after[n] == swept[n])
    && (after == swept || KeepsNewest(swept, after, SURVIVORS))
    && |after| < NONCE_CACHE_MAX_CAPACITY
  }

  lemma AcceptedStep(c: Cache, now: real, swept: map<string, real>, after: map<string, real>)
    requires swept == c.entries || swept == Purge(c.entries, now)
    requires Evicted(swept, after) && |c.entries| <= NONCE_CACHE_MAX_CAPACITY
    ensures Accepts(c.entries, swept, after, now)
  {
    SubsetSize(swept.Keys, c.entries.Keys);
    assert forall n :: n in c.entries && n !in swept ==> now - c.entries[n] >= 300.0;
  }

  /** Request `m` is only accepted if its nonce is not cached or has expired. */
  predicate Unknown(c: map<string, real>, nonce: string, now: real) { nonce in c ==> now - c[nonce] >= 300.0 }

  /** Whoever is evicted leaves 25,000 other, younger nonces behind, and the one that came in. */
  lemma EvictedMeansCrowded(r: Run, m: int, i: int, swept: map<string, real>, after: map<string, real>)
    requires r.Valid() && 0 <= i < m < |r.trace| && AllBacked(r, m) && r.answers[m]
    requires Accepts(r.caches[m].entries, swept, after, r.trace[m].time)
    requires r.trace[i].nonce in swept && swept[r.trace[i].nonce] >= r.trace[i].time
    requires r.trace[i].nonce !in after && r.trace[m].nonce != r.trace[i].nonce && r.trace[m].nonce !in after
    ensures |r.Others(i, m + 1)| > SURVIVORS
  {
    var others, newcomer := r.Others(i, m + 1), r.trace[m].nonce;
    var left := after.Keys;
    forall n | n in left ensures n in others { YoungerIsOther(r, m, i, n); }
    assert newcomer in others;
    SubsetSize(left + {newcomer}, others);
  }

  lemma YoungerIsOther(r: Run, m: int, i: int, n: string)
    requires r.Valid() && 0 <= i < m < |r.trace| && AllBacked(r, m)
    requires n in r.caches[m].entries && n != r.trace[i].nonce && r.caches[m].entries[n] >= r.trace[i].time
    ensures n in r.Others(i, m + 1)
  {
    assert Backed(r, m, n);
    var k :| 0 <= k < m && r.answers[k] && r.trace[k] == Request(n, r.caches[m].entries[n]);
  }

  lemma RememberedAccept(r: Run, m: int, i: int, swept: map<string, real>, after: map<string, real>)
    requires r.Valid() && 0 <= i < m < |r.trace| && Invariant(r, m) && Remembered(r, m, i)
    requires r.answers[i] && r.answers[m]
    requires Accepts(r.caches[m].entries, swept, after, r.trace[m].time)
    requires Unknown(r.caches[m].entries, r.trace[m].nonce, r.trace[m].time)
    requires r.caches[m + 1].entries == after[r.trace[m].nonce := r.trace[m].time]
    ensures Remembered(r, m + 1, i)
  {
    var n, c := r.trace[i].nonce, r.caches[m].entries;
    OthersGrow(r, i, m);
    if n in swept && n !in after && c[n] >= r.trace[i].time && r.trace[m].nonce != n && r.trace[m].nonce !in after {
      EvictedMeansCrowded(r, m, i, swept, after);
    }
  }

  lemma BackedAccept(r: Run, m: int, after: map<string, real>, n: string)
    requires r.Valid() && 0 <= m < |r.trace| && Invariant(r, m) && r.answers[m]
    requires after.Keys <= r.caches[m].entries.Keys
    requires forall k :: k in after ==> after[k] == r.caches[m].entries[k]
    requires r.caches[m + 1].entries == after[r.trace[m].nonce := r.trace[m].time]
    requires n in r.caches[m + 1].entries
    ensures Backed(r, m + 1, n)
  {
    var next := r.caches[m + 1].entries;
    if n == r.trace[m].nonce {
      assert r.trace[m] == Request(n, next[n]);
    } else {
      assert Backed(r, m, n);
      var k :| 0 <= k < m && r.answers[k] && r.trace[k] == Request(n, r.caches[m].entries[n]);
      assert r.trace[k] == Request(n, next[n]);
    }
  }

  /** Where the map of an accepted request comes from. */
  lemma AcceptedFrom(r: Run, m: int) returns (swept: map<string, real>, after: map<string, real>)
    requires r.Valid() && 0 <= m < |r.trace| && Invariant(r, m) && r.answers[m]
    ensures Accepts(r.caches[m].entries, swept, after, r.trace[m].time)
    ensures Unknown(r.caches[m].entries, r.trace[m].nonce, r.trace[m].time)
    ensures r.caches[m + 1].entries == after[r.trace[m].nonce := r.trace[m].time]
  {
    assert r.StepAt(m);
    var c, e := r.caches[m], r.trace[m];
    swept := if r.purges[m] then Purge(c.entries, e.time) else c.entries;
    after :| Evicted(swept, after) && r.caches[m + 1].entries == after[e.nonce := e.time];
    AcceptedStep(c, e.time, swept, after);
  }

  lemma InvariantStep(r: Run, m: int)
    requires r.Valid() && 0 <= m < |r.trace| && Invariant(r, m)
    ensures Invariant(r, m + 1)
  {
    var next := r.caches[m + 1].entries;
    if r.answers[m] {
      var swept, after := AcceptedFrom(r, m);
      forall n | n in next ensures Backed(r, m + 1, n) { BackedAccept(r, m, after, n); }
    } else {
      assert r.StepAt(m);
      forall n | n in next ensures Backed(r, m + 1, n) { assert Backed(r, m, n); }
    }
  }

  lemma {:induction false} InvariantHolds(r: Run, m: int)
    requires r.Valid() && 0 <= m <= |r.trace|
    ensures Invariant(r, m)
  {
    for k := 0 to m
      invariant Invariant(r, k)
    {
      InvariantStep(r, k);
    }
  }

  lemma RememberedStep(r: Run, m: int)
    requires r.Valid() && 0 <= m < |r.trace| && Invariant(r, m) && AllRemembered(r, m)
    ensures AllRemembered(r, m + 1)
  {
    if r.answers[m] {
      var swept, after := AcceptedFrom(r, m);
      forall i | 0 <= i < m + 1 && r.answers[i] ensures Remembered(r, m + 1, i) {
        if i < m {
          assert Remembered(r, m, i);
          RememberedAccept(r, m, i, swept, after);
        }
      }
    } else {
      assert r.StepAt(m);
      forall i | 0 <= i < m && r.answers[i] ensures Remembered(r, m + 1, i) {
        assert Remembered(r, m, i);
        OthersGrow(r, i, m);
      }
    }
  }

  lemma {:induction false} RememberedHolds(r: Run, m: int)
    requires r.Valid() && 0 <= m <= |r.trace|
    ensures AllRemembered(r, m)
  {
    for k := 0 to m
      invariant AllRemembered(r, k)
    {
      InvariantHolds(r, k);
      RememberedStep(r, k);
    }
  }

  // ----- Main results -----------------------------------------------------------------------------

  /** The map never grows past its bound, in any run. */
  lemma BoundedMemory(r: Run, m: int)
    requires r.Valid() && 0 <= m <= |r.trace|
    ensures |r.caches[m].entries| <= NONCE_CACHE_MAX_CAPACITY
  {
    InvariantHolds(r, m);
  }

  /** A rejected nonce really was accepted less than 300 seconds earlier. */
  lemma NoFalseReplay(r: Run, j: int)
    requires r.Valid() && 0 <= j < |r.trace| && !r.answers[j]
    ensures SeenRecently(r.trace, r.answers, j)
  {
    InvariantHolds(r, j);
    assert r.StepAt(j);
    var n := r.trace[j].nonce;
    assert Backed(r, j, n);
  }

  /** An accepted nonce is rejected for the next 300 seconds, unless more than 25,000 other nonces have been
      accepted in the meantime, counting those of the same instant. */
  lemma ReplayIsCaught(r: Run, i: int, j: int)
    requires r.Valid() && 0 <= i < j < |r.trace| && r.answers[i]
    requires r.trace[i].nonce == r.trace[j].nonce && r.trace[j].time - r.trace[i].time < 300.0
    requires |r.Others(i, j)| <= SURVIVORS
    ensures !r.answers[j]
  {
    RememberedHolds(r, j);
    assert r.StepAt(j) && Remembered(r, j, i);
  }

  // ----- The plain history ------------------------------------------------------------------------

  /** Accept a nonce unless it was accepted within the last 300 seconds: no map, no cleanup, no bound. */
  function History(trace: seq<Request>): (answers: seq<bool>)
    ensures |answers| == |trace|
  {
    if trace == [] then []
    else
      var past, last := trace[..|trace| - 1], trace[|trace| - 1];
      var before := History(past);
      before + [!SeenRecently(trace, before, |past|)]
  }

  /** Some accepted request before `j` carried the same nonce less than 300 seconds ago. */
  predicate SeenRecently(trace: seq<Request>, accepted: seq<bool>, j: nat)
    requires j < |trace| && j <= |accepted|
  {
    exists i :: 0 <= i < j && accepted[i] && trace[i].nonce == trace[j].nonce
             && trace[j].time - trace[i].time < 300.0
  }

  /** At most 25,000 requests fit between any two that are less than 300 seconds apart. */
  ghost predicate NoFlood(trace: seq<Request>) {
    forall i, j :: 0 <= i < j < |trace| && trace[j].time - trace[i].time < 300.0 ==> j - i - 1 <= SURVIVORS
  }

  lemma {:induction false} FewNonces(trace: seq<Request>, lo: nat, hi: nat, keys: set<string>)
    requires lo <= hi <= |trace|
    requires forall n :: n in keys ==> exists k :: lo <= k < hi && trace[k].nonce == n
    ensures |keys| <= hi - lo
    decreases hi
  {
    if keys != {} {
      var last := trace[hi - 1].nonce;
      FewNonces(trace, lo, hi - 1, keys - {last});
      SubsetSize(keys, keys - {last} + {last});
    }
  }

  /** The first request at the time of request `i`. */
  lemma {:induction false} FirstAt(r: Run, i: nat) returns (lo: nat)
    requires r.Valid() && i < |r.trace|
    ensures lo <= i && r.trace[lo].time == r.trace[i].time
    ensures forall k :: 0 <= k < lo ==> r.trace[k].time < r.trace[i].time
  {
    if i == 0 || r.trace[i - 1].time < r.trace[i].time {
      lo := i;
    } else {
      lo := FirstAt(r, i - 1);
    }
  }

  lemma OthersCount(r: Run, i: nat, j: nat)
    requires r.Valid() && NoFlood(r.trace) && i < j < |r.trace| && r.trace[j].time - r.trace[i].time < 300.0
    ensures |r.Others(i, j)| <= SURVIVORS
  {
    var lo := FirstAt(r, i);
    var others, own := r.Others(i, j), r.trace[i].nonce;
    forall n | n in others + {own} ensures exists k :: lo <= k < j && r.trace[k].nonce == n {
      if n != own {
        var k :| 0 <= k < j && r.answers[k] && r.trace[k].nonce == n && r.trace[k].time >= r.trace[i].time;
        assert lo <= k;
      }
    }
    FewNonces(r.trace, lo, j, others + {own});
  }

  lemma {:induction false} HistoryPrefix(trace: seq<Request>, m: nat)
    requires m <= |trace|
    ensures History(trace)[..m] == History(trace[..m])
  {
    if m < |trace| {
      HistoryPrefix(trace[..|trace| - 1], m);
      assert trace[..|trace| - 1][..m] == trace[..m];
    } else {
      assert trace[..m] == trace;
    }
  }

  lemma HistoryLast(trace: seq<Request>)
    requires trace != []
    ensures var j := |trace| - 1; History(trace)[j] <==> !SeenRecently(trace, History(trace[..j]), j)
  {
  }

  lemma SeenSame(t1: seq<Request>, a1: seq<bool>, t2: seq<Request>, a2: seq<bool>, j: nat)
    requires j < |t1| && j <= |a1| && j < |t2| && j <= |a2|
    requires t1[..j + 1] == t2[..j + 1] && a1[..j] == a2[..j]
    ensures SeenRecently(t1, a1, j) ==> SeenRecently(t2, a2, j)
  {
    if SeenRecently(t1, a1, j) {
      var i :| 0 <= i < j && a1[i] && t1[i].nonce == t1[j].nonce && t1[j].time - t1[i].time < 300.0;
      assert a1[i] == a1[..j][i] == a2[i];
      assert t1[i] == t1[..j + 1][i] == t2[i] && t1[j] == t1[..j + 1][j] == t2[j];
    }
  }

  lemma HistoryAt(trace: seq<Request>, j: nat)
    requires j < |trace|
    ensures History(trace)[j] <==> !SeenRecently(trace, History(trace), j)
  {
    HistoryPrefix(trace, j + 1);
    HistoryPrefix(trace, j);
    var sub, all := trace[..j + 1], History(trace);
    assert sub[..j] == trace[..j];
    assert all[j] == all[..j + 1][j];
    HistoryLast(sub);
    SeenSame(sub, all[..j], trace, all, j);
    SeenSame(trace, all, sub, all[..j], j);
  }

  /** A repetition of an accepted nonce within 300 seconds is rejected. */
  ghost predicate Caught(r: Run, i: int, j: int)
    requires r.Sized() && 0 <= i < j < |r.trace|
  {
    r.answers[i] && r.trace[i].nonce == r.trace[j].nonce && r.trace[j].time - r.trace[i].time < 300.0 ==> !r.answers[j]
  }

  /** A run that catches every repetition answers like the plain history. */
  lemma {:induction false} CaughtIsHistory(r: Run, j: nat)
    requires r.Valid() && j <= |r.trace| && forall i, k :: 0 <= i < k < |r.trace| ==> Caught(r, i, k)
    ensures forall i :: 0 <= i < j ==> r.answers[i] == History(r.trace)[i]
  {
    if j > 0 {
      CaughtIsHistory(r, j - 1);
      var k := j - 1;
      HistoryAt(r.trace, k);
      if !History(r.trace)[k] {
        var i :| 0 <= i < k && History(r.trace)[i] && r.trace[i].nonce == r.trace[k].nonce
              && r.trace[k].time - r.trace[i].time < 300.0;
        assert Caught(r, i, k);
      } else if !r.answers[k] {
        NoFalseReplay(r, k);
      }
    }
  }

  /** Without floods the cache answers exactly like the plain history, whatever the sweeping
      schedule: cleanup is invisible. */
  lemma RefinesHistory(r: Run)
    requires r.Valid() && NoFlood(r.trace)
    ensures r.answers == History(r.trace)
  {
    forall i, k | 0 <= i < k < |r.trace| ensures Caught(r, i, k) {
      if r.answers[i] && r.trace[i].nonce == r.trace[k].nonce && r.trace[k].time - r.trace[i].time < 300.0 {
        OthersCount(r, i, k);
        ReplayIsCaught(r, i, k);
      }
    }
    CaughtIsHistory(r, |r.trace|);
  }
}
