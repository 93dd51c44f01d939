/**
 Replay detection on the cleanup schedule of the code (crates/core/src/security/hmac_auth.rs, check_and_insert):
 every 64th insertion sweeps, so the map holds little more than what is live, and it takes nearly a full map of
 requests within the time to live before anything live is evicted.
 */
module NonceSchedule {
  import opened Basics
  import opened NonceCache

  /** How far apart two requests within the time to live may be for the cache to lose nothing. */
  const SUSTAINED: nat := NONCE_CACHE_MAX_CAPACITY - CLEANUP_INTERVAL

  /** Sweeps take place on every 64th insertion and on no other. */
  ghost predicate OnSchedule(r: Run)
    requires r.Sized()
  {
    forall i :: 0 <= i < |r.trace| ==> r.purges[i] == ((r.caches[i].insertCount + 1) % CLEANUP_INTERVAL == 0)
  }

  /** Two requests less than 300 seconds apart are at most `d` requests apart. */
  ghost predicate Density(trace: seq<Request>, d: nat) {
    forall i, j :: 0 <= i < j < |trace| && trace[j].time - trace[i].time < 300.0 ==> j - i <= d
  }

  // ----- Nothing live is lost -----------------------------------------------------------------------------------

  /** Accepted request `i` is still covered or has expired. */
  predicate Kept(r: Run, m: int, i: int)
    requires r.Sized() && 0 <= i < m <= |r.trace|
  {
    var n, entries := r.trace[i].nonce, r.caches[m].entries;
    (n in entries && entries[n] >= r.trace[i].time) || r.trace[m - 1].time - r.trace[i].time >= 300.0
  }

  ghost predicate AllKept(r: Run, m: int)
    requires r.Sized() && 0 <= m <= |r.trace|
  {
    forall i {:trigger Kept(r, m, i)} :: 0 <= i < m && r.answers[i] ==> Kept(r, m, i)
  }

  /** The map holds what was live at the last sweep and what has been inserted since. */
  predicate Slim(c: Cache) { |c.entries| <= SUSTAINED + 1 + c.insertCount % CLEANUP_INTERVAL }

  /** A swept map holds nonces of recent requests only. */
  lemma SweptIsSmall(r: Run, m: int, d: nat)
    requires r.Valid() && 0 <= m < |r.trace| && AllBacked(r, m) && Density(r.trace, d)
    ensures |Purge(r.caches[m].entries, r.trace[m].time)| <= d
  {
    var now, lo := r.trace[m].time, if m < d then 0 else m - d;
    var swept := Purge(r.caches[m].entries, now);
    forall n | n in swept.Keys ensures exists k :: lo <= k < m && r.trace[k].nonce == n {
      assert Backed(r, m, n);
      var k :| 0 <= k < m && r.answers[k] && r.trace[k] == Request(n, r.caches[m].entries[n]);
      assert lo <= k;
    }
    FewNonces(r.trace, lo, m, swept.Keys);
  }

  lemma InsertSize(m: map<string, real>, n: string, t: real)
    ensures |m[n := t]| <= |m| + 1
  {
    SubsetSize(m[n := t].Keys, m.Keys + {n});
  }

  /** On the schedule nothing is evicted. */
  lemma NoEviction(r: Run, m: int) returns (swept: map<string, real>)
    requires r.Valid() && OnSchedule(r) && Density(r.trace, SUSTAINED) && 0 <= m < |r.trace| && r.answers[m]
    requires AllBacked(r, m) && Slim(r.caches[m])
    ensures swept == r.caches[m].entries || swept == Purge(r.caches[m].entries, r.trace[m].time)
    ensures r.caches[m + 1].entries == swept[r.trace[m].nonce := r.trace[m].time]
    ensures Slim(r.caches[m + 1])
  {
    var c, e := r.caches[m], r.trace[m];
    assert r.StepAt(m);
    swept := if r.purges[m] then Purge(c.entries, e.time) else c.entries;
    if r.purges[m] { SweptIsSmall(r, m, SUSTAINED); }
    assert |swept| < NONCE_CACHE_MAX_CAPACITY;
    InsertSize(swept, e.nonce, e.time);
  }

  lemma KeptStep(r: Run, m: int)
    requires r.Valid() && OnSchedule(r) && Density(r.trace, SUSTAINED) && 0 <= m < |r.trace|
    requires AllBacked(r, m) && Slim(r.caches[m]) && AllKept(r, m)
    ensures Slim(r.caches[m + 1]) && AllKept(r, m + 1)
  {
    assert r.StepAt(m);
    if r.answers[m] {
      var swept := NoEviction(r, m);
      forall i | 0 <= i < m + 1 && r.answers[i] ensures Kept(r, m + 1, i) {
        if i < m { assert Kept(r, m, i); }
      }
    } else {
      forall i | 0 <= i < m && r.answers[i] ensures Kept(r, m + 1, i) { assert Kept(r, m, i); }
    }
  }

  lemma {:induction false} KeptHolds(r: Run, m: int)
    requires r.Valid() && OnSchedule(r) && Density(r.trace, SUSTAINED) && 0 <= m <= |r.trace|
    ensures Slim(r.caches[m]) && AllKept(r, m)
  {
    for k := 0 to m
      invariant Slim(r.caches[k]) && AllKept(r, k)
    {
      InvariantHolds(r, k);
      KeptStep(r, k);
    }
  }

  /** On the schedule of the code the cache answers exactly like the plain history as long as requests within
      300 seconds of each other are at most 99,936 requests apart. */
  lemma SustainedIsHistory(r: Run)
    requires r.Valid() && OnSchedule(r) && Density(r.trace, SUSTAINED)
    ensures r.answers == History(r.trace)
  {
    forall i, k | 0 <= i < k < |r.trace| ensures Caught(r, i, k) {
      KeptHolds(r, k);
      assert r.StepAt(k);
      if r.answers[i] { assert Kept(r, k, i); }
    }
    CaughtIsHistory(r, |r.trace|);
  }
}
