/**
 The flood that makes the nonce cache forget (crates/core/src/security/hmac_auth.rs, check_and_insert): requests
 in even steps, as dense as nearly a full map within the time to live, so that one eviction strikes just before a
 sweep. A replay is then accepted after 25,001 other nonces and within the time to live. This makes the bounds of
 `NonceCache.ReplayIsCaught` and `NonceSchedule.SustainedIsHistory` exact.
 */
module NonceFlood {
  import opened NonceCache
  import opened NonceSchedule

  const FULL: nat := NONCE_CACHE_MAX_CAPACITY

  /** Requests that far apart are exactly as old as the time to live. */
  const STEPS: nat := SUSTAINED + 2

  /** The request that sweeps, and the first one it leaves in the map. */
  const SWEEP: nat := 99_967
  const LEFT: nat := SWEEP + 1 - STEPS

  /** The request that finds the map full, and the first entry to survive its eviction. */
  const LAST: nat := LEFT + FULL
  const FIRST: nat := LAST - SURVIVORS

  /** Nonces that differ in length. */
  function Nonce(k: nat): (n: string)
    ensures |n| == k + 1
  {
    if k == 0 then "n" else "n" + Nonce(k - 1)
  }

  function At(k: nat): real { k as real * 300.0 / 99_938.0 }

  /** The entries of requests `lo .. hi-1`. */
  function Entries(lo: nat, hi: nat): map<string, real>
    decreases hi
  {
    if hi <= lo then map[] else Entries(lo, hi - 1)[Nonce(hi - 1) := At(hi - 1)]
  }

  lemma {:induction false} EntryAt(lo: nat, hi: nat, k: nat)
    ensures Nonce(k) in Entries(lo, hi) <==> lo <= k < hi
    ensures lo <= k < hi ==> Entries(lo, hi)[Nonce(k)] == At(k)
    decreases hi
  {
    if hi > lo {
      EntryAt(lo, hi - 1, k);
    }
  }

  lemma {:induction false} EntryOf(lo: nat, hi: nat, n: string) returns (k: nat)
    requires n in Entries(lo, hi)
    ensures lo <= k < hi && n == Nonce(k) && Entries(lo, hi)[n] == At(k)
    decreases hi
  {
    if n == Nonce(hi - 1) {
      k := hi - 1;
    } else {
      k := EntryOf(lo, hi - 1, n);
    }
  }

  lemma NewKey(m: map<string, real>, n: string, t: real)
    requires n !in m
    ensures |m[n := t]| == |m| + 1
  {
    assert m[n := t].Keys == m.Keys + {n};
  }

  lemma {:induction false} EntryCount(lo: nat, hi: nat)
    requires lo <= hi
    ensures |Entries(lo, hi)| == hi - lo
    decreases hi
  {
    if hi > lo {
      EntryCount(lo, hi - 1);
      EntryAt(lo, hi - 1, hi - 1);
      NewKey(Entries(lo, hi - 1), Nonce(hi - 1), At(hi - 1));
    }
  }

  lemma LiveIff(k: nat, now: nat)
    requires k <= now
    ensures Live(At(k), At(now)) <==> now - k < STEPS
  {
    assert At(now) - At(k) == (now - k) as real * 300.0 / 99_938.0;
  }

  /** A sweep leaves the last requests. */
  lemma SweepLeaves(lo: nat, hi: nat, now: nat, from: nat)
    requires lo <= from <= hi <= now && now - from < STEPS && (from == lo || now - from == STEPS - 1)
    ensures Purge(Entries(lo, hi), At(now)) == Entries(from, hi)
  {
    var all, left := Entries(lo, hi), Entries(from, hi);
    forall n | n in all ensures Live(all[n], At(now)) <==> n in left {
      var k := EntryOf(lo, hi, n);
      EntryAt(from, hi, k);
      LiveIff(k, now);
    }
    forall n | n in left ensures n in all && left[n] == all[n] {
      var k := EntryOf(from, hi, n);
      EntryAt(lo, hi, k);
    }
  }

  lemma KeepsTheLast()
    ensures KeepsNewest(Entries(LEFT, LAST), Entries(FIRST, LAST), SURVIVORS)
  {
    var all, kept := Entries(LEFT, LAST), Entries(FIRST, LAST);
    EntryCount(FIRST, LAST);
    forall n | n in kept ensures n in all && kept[n] == all[n] {
      var k := EntryOf(FIRST, LAST, n);
      EntryAt(LEFT, LAST, k);
    }
    forall n, d | n in kept && d in all && d !in kept ensures all[d] <= all[n] {
      var k := EntryOf(FIRST, LAST, n);
      var l := EntryOf(LEFT, LAST, d);
      EntryAt(FIRST, LAST, l);
    }
  }

  // ----- The run ---------------------------------------------------------------------------------------------

  /** Requests 0 .. LAST carry new nonces; then the nonce just before the survivors is repeated. */
  function Ask(k: nat): Request { Request(if k <= LAST then Nonce(k) else Nonce(FIRST - 1), At(k)) }

  function Before(k: nat): Cache {
    Cache(if k <= SWEEP then Entries(0, k)
          else if k <= LAST then Entries(LEFT, k)
          else if k == LAST + 1 then Entries(FIRST, LAST + 1)
          else Entries(FIRST, LAST + 1)[Nonce(FIRST - 1) := At(LAST + 1)], k)
  }

  predicate Sweeps(k: nat) { (k + 1) % CLEANUP_INTERVAL == 0 }

  function Flood(): Run {
    Run(seq(LAST + 2, k requires 0 <= k < LAST + 2 => Ask(k)),
        seq(LAST + 2, k requires 0 <= k < LAST + 2 => Sweeps(k)),
        seq(LAST + 3, k requires 0 <= k < LAST + 3 => Before(k)),
        seq(LAST + 2, k requires 0 <= k < LAST + 2 => true))
  }

  lemma Filling(k: nat)
    requires k < LAST
    ensures Step(Before(k), Nonce(k), At(k), Sweeps(k), Before(k + 1), true)
  {
    var lo := if k <= SWEEP then 0 else LEFT;
    var from := if k < SWEEP then 0 else LEFT;
    EntryAt(lo, k, k);
    EntryCount(from, k);
    if Sweeps(k) { SweepLeaves(lo, k, k, from); }
    assert Evicted(Entries(from, k), Entries(from, k));
  }

  lemma Overflowing()
    ensures Step(Before(LAST), Nonce(LAST), At(LAST), Sweeps(LAST), Before(LAST + 1), true)
  {
    EntryAt(LEFT, LAST, LAST);
    EntryCount(LEFT, LAST);
    KeepsTheLast();
    assert Evicted(Entries(LEFT, LAST), Entries(FIRST, LAST));
  }

  lemma Replaying()
    ensures Step(Before(LAST + 1), Nonce(FIRST - 1), At(LAST + 1), Sweeps(LAST + 1), Before(LAST + 2), true)
  {
    SweepLeaves(FIRST, LAST + 1, LAST + 1, FIRST);
    EntryAt(FIRST, LAST + 1, FIRST - 1);
    EntryCount(FIRST, LAST + 1);
    assert Evicted(Entries(FIRST, LAST + 1), Entries(FIRST, LAST + 1));
  }

  lemma FloodValid()
    ensures Flood().Valid() && OnSchedule(Flood())
  {
    var r := Flood();
    forall k | 0 <= k < |r.trace| ensures r.StepAt(k) {
      if k < LAST { Filling(k); } else if k == LAST { Overflowing(); } else { Replaying(); }
    }
  }

  /** One request more per 300 seconds than the cache sustains. */
  lemma FloodDensity()
    ensures Density(Flood().trace, SUSTAINED + 1)
  {
    var trace := Flood().trace;
    forall i, j | 0 <= i < j < |trace| && trace[j].time - trace[i].time < 300.0 ensures j - i <= SUSTAINED + 1 {
      LiveIff(i, j);
    }
  }

  // ----- What it shows ------------------------------------------------------------------------------------------

  function NoncesIn(lo: nat, hi: nat): set<string>
    decreases hi
  {
    if hi <= lo then {} else NoncesIn(lo, hi - 1) + {Nonce(hi - 1)}
  }

  lemma {:induction false} NonceIn(lo: nat, hi: nat, n: string)
    ensures n in NoncesIn(lo, hi) <==> lo < |n| <= hi && n == Nonce(|n| - 1)
    decreases hi
  {
    if hi > lo { NonceIn(lo, hi - 1, n); }
  }

  lemma {:induction false} NonceCount(lo: nat, hi: nat)
    requires lo <= hi
    ensures |NoncesIn(lo, hi)| == hi - lo
    decreases hi
  {
    if hi > lo {
      NonceCount(lo, hi - 1);
      NonceIn(lo, hi - 1, Nonce(hi - 1));
    }
  }

  lemma NonceOfRange(lo: nat, hi: nat, k: nat)
    requires lo <= k < hi
    ensures Nonce(k) in NoncesIn(lo, hi)
  {
    NonceIn(lo, hi, Nonce(k));
  }

  lemma OtherIsIn(n: string)
    requires n in Flood().Others(FIRST - 1, LAST + 1)
    ensures n in NoncesIn(FIRST, LAST + 1)
  {
    var r := Flood();
    var k :| 0 <= k < LAST + 1 && r.answers[k] && r.trace[k].nonce == n != r.trace[FIRST - 1].nonce
          && r.trace[k].time >= r.trace[FIRST - 1].time;
    NonceOfRange(FIRST, LAST + 1, k);
  }

  lemma InIsOther(n: string)
    requires n in NoncesIn(FIRST, LAST + 1)
    ensures n in Flood().Others(FIRST - 1, LAST + 1)
  {
    var r := Flood();
    NonceIn(FIRST, LAST + 1, n);
    assert r.trace[|n| - 1].nonce == n && r.answers[|n| - 1] && r.trace[FIRST - 1].nonce == Nonce(FIRST - 1);
  }

  lemma FloodOthers()
    ensures Flood().Others(FIRST - 1, LAST + 1) == NoncesIn(FIRST, LAST + 1)
  {
    var others, nonces := Flood().Others(FIRST - 1, LAST + 1), NoncesIn(FIRST, LAST + 1);
    forall n | n in others ensures n in nonces { OtherIsIn(n); }
    forall n | n in nonces ensures n in others { InIsOther(n); }
  }

  lemma FloodAsks(i: nat, j: nat)
    requires i == FIRST - 1 && j == LAST + 1
    ensures var r := Flood();
            && r.Sized() && i < j < |r.trace| && r.answers[i] && r.answers[j]
            && r.trace[i].nonce == r.trace[j].nonce && r.trace[j].time - r.trace[i].time < 300.0
  {
  }

  lemma FloodCrowd()
    ensures |Flood().Others(FIRST - 1, LAST + 1)| == SURVIVORS + 1
  {
    FloodOthers();
    NonceCount(FIRST, LAST + 1);
  }

  /** With one nonce more in between than `ReplayIsCaught` allows, the replay gets through, on the code's own
      cleanup schedule. */
  lemma ReplayGetsThrough() returns (i: nat, j: nat)
    ensures var r := Flood();
            && r.Valid() && OnSchedule(r) && Density(r.trace, SUSTAINED + 1)
            && i < j < |r.trace| && !Caught(r, i, j) && |r.Others(i, j)| == SURVIVORS + 1
  {
    i, j := FIRST - 1, LAST + 1;
    FloodValid();
    FloodDensity();
    FloodAsks(i, j);
    FloodCrowd();
  }

  // ----- The exact bounds --------------------------------------------------------------------------------------------

  /** On the schedule of the code every replay with at most `n` other nonces in between is caught. */
  ghost predicate CatchesWithin(n: nat) {
    forall r: Run, i, j ::
      r.Valid() && OnSchedule(r) && 0 <= i < j < |r.trace| && |r.Others(i, j)| <= n ==> Caught(r, i, j)
  }

  /** ... which holds for 25,000 others and for no more. */
  lemma CatchesIff(n: nat)
    ensures CatchesWithin(n) <==> n <= SURVIVORS
  {
    if n <= SURVIVORS {
      forall r: Run, i, j | r.Valid() && OnSchedule(r) && 0 <= i < j < |r.trace| && |r.Others(i, j)| <= n
        ensures Caught(r, i, j)
      {
        if !Caught(r, i, j) { ReplayIsCaught(r, i, j); }
      }
    } else {
      var i, j := ReplayGetsThrough();
    }
  }

  /** On the schedule of the code the cache answers like the plain history at this density. */
  ghost predicate FaithfulAt(d: nat) {
    forall r: Run :: r.Valid() && OnSchedule(r) && Density(r.trace, d) ==> r.answers == History(r.trace)
  }

  /** A run that answers like the plain history catches every repetition. */
  lemma HistoryCatches(r: Run, i: nat, j: nat)
    requires r.Sized() && r.answers == History(r.trace) && i < j < |r.trace|
    ensures Caught(r, i, j)
  {
    HistoryAt(r.trace, j);
  }

  /** ... which holds for densities up to 99,936 and for no higher one. */
  lemma FaithfulIff(d: nat)
    ensures FaithfulAt(d) <==> d <= SUSTAINED
  {
    if d <= SUSTAINED {
      forall r: Run | r.Valid() && OnSchedule(r) && Density(r.trace, d) ensures r.answers == History(r.trace) {
        assert Density(r.trace, SUSTAINED);
        SustainedIsHistory(r);
      }
    } else {
      var i, j := ReplayGetsThrough();
      assert Density(Flood().trace, d);
      if FaithfulAt(d) { HistoryCatches(Flood(), i, j); }
    }
  }
}
