/**
 What threads can do that sequential callers cannot (crates/traffic-control/src/rate_limiter.rs, try_acquire
 and refill_tokens): for which configurations the window bound of the sequential bucket survives
 interleaving, and runs that reach the bounds of `LockFreeBucket`.
 */
module LockFreeBursts {
  import opened Basics
  import opened Ledger
  import opened TokenBucket
  import opened LockFreeBucket

  // ----- Putting runs together ---------------------------------------------------------------------------

  predicate Leads(config: BucketConfig, s: State, a: Action, s': State) { Enabled(s, a) && s' == Next(config, s, a) }

  lemma {:induction false} RunsOn(config: BucketConfig, o: State, done: seq<Action>, s: State, a: Action)
    requires Runs(config, o, done, s) && Enabled(s, a)
    ensures Runs(config, o, done + [a], Next(config, s, a))
    decreases |done|
  {
    if done == [] {
      assert done + [a] == [a] && [a][1..] == [];
    } else {
      assert (done + [a])[1..] == done[1..] + [a];
      RunsOn(config, Next(config, o, done[0]), done[1..], s, a);
    }
  }

  /** A run continued along a path. */
  lemma {:induction false} Reach(config: BucketConfig, o: State, done: seq<Action>, path: seq<State>, actions: seq<Action>)
    requires |path| == |actions| + 1 && Runs(config, o, done, path[0])
    requires forall i :: 0 <= i < |actions| ==> Leads(config, path[i], actions[i], path[i + 1])
    ensures Runs(config, o, done + actions, path[|actions|])
  {
    if actions == [] {
      assert done + actions == done;
    } else {
      var n := |actions| - 1;
      Reach(config, o, done, path[..n + 1], actions[..n]);
      assert Leads(config, path[n], actions[n], path[n + 1]);
      RunsOn(config, o, done + actions[..n], path[n], actions[n]);
      assert done + actions[..n] + [actions[n]] == done + actions;
    }
  }

  /** What `done'` adds to `done` are steps of the threads `lo .. hi-1`. */
  predicate Adds(done: seq<Action>, done': seq<Action>, lo: nat, hi: nat) {
    done <= done' && forall i :: |done| <= i < |done'| ==> !done'[i].Tick? && lo <= done'[i].t < hi
  }

  lemma CreditExact(rate: real, n: nat)
    requires rate > 0.0 && n < U64
    ensures Credit(n as real / rate, rate) == n
  {
    assert n as real / rate * rate == n as real;
  }

  lemma Overwrite(pcs: map<nat, Pc>, t: nat, a: Pc, b: Pc)
    ensures pcs[t := a][t := b] == pcs[t := b]
  {
  }

  // ----- What one thread does ------------------------------------------------------------------------------

  /** Thread `t` has passed a refill that had nothing to add. */
  function Passed(s: State, t: nat): State { s.(stamped := s.entitled).Go(t, AcquireLoad) }

  lemma PassSteps(config: BucketConfig, s: State, t: nat)
    requires s.lock.Free? && s.Pc(t).Idle? && s.clock == s.lastRefill
    ensures var s1 := s.Go(t, Waiting);
            var s2 := s.(lock := Held(t)).Go(t, Locked);
            var s3 := s.(lock := Held(t)).Go(t, Measured(0.0));
            var s4 := s.(lock := Held(t), stamped := s.entitled).Go(t, Unlock);
            && Leads(config, s, Enter(t), s1) && Leads(config, s1, TakeLock(t), s2)
            && Leads(config, s2, ReadElapsed(t), s3) && Leads(config, s3, Stamp(t), s4)
            && Leads(config, s4, ReleaseLock(t), Passed(s, t))
  {
    assert 0.0 * config.refillRate == 0.0;
    Overwrite(s.pcs, t, Waiting, Locked);
    Overwrite(s.pcs, t, Locked, Measured(0.0));
    Overwrite(s.pcs, t, Measured(0.0), Unlock);
    Overwrite(s.pcs, t, Unlock, AcquireLoad);
  }

  lemma Pass(config: BucketConfig, o: State, done: seq<Action>, s: State, t: nat) returns (done': seq<Action>)
    requires Runs(config, o, done, s) && s.lock.Free? && s.Pc(t).Idle? && s.clock == s.lastRefill
    ensures Runs(config, o, done', Passed(s, t)) && Adds(done, done', t, t + 1)
  {
    PassSteps(config, s, t);
    var s1, s2 := s.Go(t, Waiting), s.(lock := Held(t)).Go(t, Locked);
    var s3 := s.(lock := Held(t)).Go(t, Measured(0.0));
    var s4 := s.(lock := Held(t), stamped := s.entitled).Go(t, Unlock);
    var more := [Enter(t), TakeLock(t), ReadElapsed(t), Stamp(t), ReleaseLock(t)];
    Reach(config, o, done, [s, s1, s2, s3, s4, Passed(s, t)], more);
    done' := done + more;
  }

  /** Thread `t` has computed a credit of `add` and not yet written it. */
  function Computing(s: State, t: nat, add: nat): State {
    s.(lastRefill := s.clock, stamped := s.entitled, lock := Held(t)).Go(t, RefillLoad(add))
  }

  lemma ComputeSteps(config: BucketConfig, s: State, t: nat, add: nat)
    requires s.lock.Free? && s.Pc(t).Idle?
    requires add > 0 && Credit(s.clock - s.lastRefill, config.refillRate) == add
    ensures var s1 := s.Go(t, Waiting);
            var s2 := s.(lock := Held(t)).Go(t, Locked);
            var s3 := s.(lock := Held(t)).Go(t, Measured(s.clock - s.lastRefill));
            && Leads(config, s, Enter(t), s1) && Leads(config, s1, TakeLock(t), s2)
            && Leads(config, s2, ReadElapsed(t), s3) && Leads(config, s3, Stamp(t), Computing(s, t, add))
  {
    var elapsed := s.clock - s.lastRefill;
    Overwrite(s.pcs, t, Waiting, Locked);
    Overwrite(s.pcs, t, Locked, Measured(elapsed));
    Overwrite(s.pcs, t, Measured(elapsed), RefillLoad(add));
  }

  lemma Compute(config: BucketConfig, o: State, done: seq<Action>, s: State, t: nat, add: nat) returns (done': seq<Action>)
    requires Runs(config, o, done, s) && s.lock.Free? && s.Pc(t).Idle?
    requires add > 0 && Credit(s.clock - s.lastRefill, config.refillRate) == add
    ensures Runs(config, o, done', Computing(s, t, add)) && Adds(done, done', t, t + 1)
  {
    ComputeSteps(config, s, t, add);
    var s1, s2 := s.Go(t, Waiting), s.(lock := Held(t)).Go(t, Locked);
    var s3 := s.(lock := Held(t)).Go(t, Measured(s.clock - s.lastRefill));
    var more := [Enter(t), TakeLock(t), ReadElapsed(t), Stamp(t)];
    Reach(config, o, done, [s, s1, s2, s3, Computing(s, t, add)], more);
    done' := done + more;
  }

  /** Thread `t` has written its credit and let go of the lock. */
  function Committed(s: State, t: nat, add: nat): State {
    s.(tokens := s.tokens + add, credited := s.credited + add, lock := Free).Go(t, AcquireLoad)
  }

  lemma CommitSteps(config: BucketConfig, s: State, t: nat, add: nat)
    requires s.Pc(t) == RefillLoad(add) && 0 <= s.tokens && s.tokens + add <= config.maxTokens < U64
    ensures var s1 := s.Go(t, RefillCas(add, s.tokens));
            var s2 := s.(tokens := s.tokens + add, credited := s.credited + add).Go(t, Unlock);
            && Leads(config, s, LoadToRefill(t), s1) && Leads(config, s1, CasToRefill(t, false), s2)
            && Leads(config, s2, ReleaseLock(t), Committed(s, t, add))
  {
    assert NewValue(config, s.tokens, add) == s.tokens + add;
    Overwrite(s.pcs, t, RefillCas(add, s.tokens), Unlock);
    Overwrite(s.pcs, t, Unlock, AcquireLoad);
  }

  lemma Commit(config: BucketConfig, o: State, done: seq<Action>, s: State, t: nat, add: nat) returns (done': seq<Action>)
    requires Runs(config, o, done, s) && s.Pc(t) == RefillLoad(add)
    requires 0 <= s.tokens && s.tokens + add <= config.maxTokens < U64
    ensures Runs(config, o, done', Committed(s, t, add)) && Adds(done, done', t, t + 1)
  {
    CommitSteps(config, s, t, add);
    var s1 := s.Go(t, RefillCas(add, s.tokens));
    var s2 := s.(tokens := s.tokens + add, credited := s.credited + add).Go(t, Unlock);
    var more := [LoadToRefill(t), CasToRefill(t, false), ReleaseLock(t)];
    Reach(config, o, done, [s, s1, s2, Committed(s, t, add)], more);
    done' := done + more;
  }

  /** Thread `t` has been granted its request. */
  function Taken(config: BucketConfig, s: State, t: nat): State {
    s.(tokens := s.tokens - config.cost, grants := s.grants + 1).Go(t, Idle)
  }

  lemma Take(config: BucketConfig, o: State, done: seq<Action>, s: State, t: nat) returns (done': seq<Action>)
    requires Runs(config, o, done, s) && s.Pc(t).AcquireLoad? && s.tokens >= config.cost
    ensures Runs(config, o, done', Taken(config, s, t)) && Adds(done, done', t, t + 1)
  {
    var s1 := s.Go(t, AcquireCas(s.tokens));
    Overwrite(s.pcs, t, AcquireCas(s.tokens), Idle);
    assert Leads(config, s, LoadToAcquire(t), s1);
    assert Leads(config, s1, CasToAcquire(t, false), Taken(config, s, t));
    done' := done + [LoadToAcquire(t), CasToAcquire(t, false)];
    Reach(config, o, done, [s, s1, Taken(config, s, t)], [LoadToAcquire(t), CasToAcquire(t, false)]);
  }

  // ----- What many threads do --------------------------------------------------------------------------------

  /** Threads `lo .. hi-1` are about to take a token. */
  ghost predicate Ready(s: State, lo: nat, hi: nat) {
    forall t: nat {:trigger s.Pc(t)} :: lo <= t < hi ==> s.Pc(t).AcquireLoad?
  }

  /** Nothing but the threads `lo .. hi-1`, the tokens and the grants has changed. */
  ghost predicate SameExcept(s: State, s': State, lo: nat, hi: nat) {
    && s'.clock == s.clock && s'.lastRefill == s.lastRefill && s'.lock == s.lock && s'.credited == s.credited
    && s'.entitled == s.entitled && s'.stamped == s.stamped
    && forall t: nat {:trigger s'.Pc(t)} :: !(lo <= t < hi) ==> s'.Pc(t) == s.Pc(t)
  }

  lemma {:induction false} TakeAll(config: BucketConfig, o: State, done: seq<Action>, s: State, lo: nat, n: nat)
    returns (done': seq<Action>, s': State)
    requires Runs(config, o, done, s) && Ready(s, lo, lo + n) && s.tokens >= Repeat(config.cost, n)
    ensures Runs(config, o, done', s') && SameExcept(s, s', lo, lo + n) && Adds(done, done', lo, lo + n)
    ensures s'.tokens == s.tokens - Repeat(config.cost, n) && s'.grants == s.grants + n
    ensures n > 0 ==> s'.Pc(lo).Idle?
    decreases n
  {
    if n == 0 {
      done', s' := done, s;
    } else {
      RepeatGrows(config.cost, n);
      done' := Take(config, o, done, s, lo);
      forall t: nat | lo + 1 <= t < lo + n ensures Taken(config, s, lo).Pc(t).AcquireLoad? { assert s.Pc(t).AcquireLoad?; }
      done', s' := TakeAll(config, o, done', Taken(config, s, lo), lo + 1, n - 1);
      assert s'.Pc(lo) == Taken(config, s, lo).Pc(lo);
    }
  }

  /** `n` times the cost, as a repeated sum. */
  function Repeat(cost: nat, n: nat): nat { if n == 0 then 0 else cost + Repeat(cost, n - 1) }

  lemma {:induction false} RepeatGrows(cost: nat, n: nat)
    ensures n > 0 ==> Repeat(cost, n) >= cost
    ensures Repeat(cost, n) == cost * n
  {
    if n > 0 { RepeatGrows(cost, n - 1); }
  }

  /** The full bucket at time `now`, with threads `2 .. n+1` about to take a token and all others idle. */
  ghost predicate Lined(config: BucketConfig, now: real, s: State, n: nat) {
    && s.clock == s.lastRefill == now && s.lock.Free? && s.tokens == config.maxTokens && s.grants == 0
    && Ready(s, 2, 2 + n)
    && forall t: nat {:trigger s.Pc(t)} :: !(2 <= t < 2 + n) ==> s.Pc(t).Idle?
  }

  lemma LinedNext(config: BucketConfig, now: real, s: State, n: nat)
    requires n > 0 && Lined(config, now, s, n - 1)
    ensures Lined(config, now, Passed(s, 1 + n), n)
  {
    var s' := Passed(s, 1 + n);
    forall t: nat ensures s'.Pc(t) == if t == 1 + n then AcquireLoad else s.Pc(t) {}
  }

  lemma {:induction false} LineUp(config: BucketConfig, now: real, n: nat) returns (done: seq<Action>, s: State)
    ensures Runs(config, Init(config, now), done, s) && Lined(config, now, s, n)
    decreases n
  {
    if n == 0 {
      done, s := [], Init(config, now);
    } else {
      done, s := LineUp(config, now, n - 1);
      done := Pass(config, Init(config, now), done, s, 1 + n);
      LinedNext(config, now, s, n);
      s := Passed(s, 1 + n);
    }
  }

  /** A full bucket, threads lined up, and a credit computed by thread 0 but not yet written. */
  ghost predicate Stalled(config: BucketConfig, s: State, n: nat, add: nat) {
    && s.tokens == config.maxTokens && s.grants == 0 && s.lastRefill == s.clock
    && s.lock == Held(0) && s.Pc(0) == RefillLoad(add) && s.Pc(1).Idle? && Ready(s, 2, 2 + n)
  }

  lemma StalledNext(config: BucketConfig, now: real, s: State, n: nat, dt: real, add: nat)
    requires Lined(config, now, s, n) && dt >= 0.0
    ensures Stalled(config, Computing(Next(config, s, Tick(dt)), 0, add), n, add)
  {
    var s' := Computing(Next(config, s, Tick(dt)), 0, add);
    forall t: nat ensures s'.Pc(t) == if t == 0 then RefillLoad(add) else s.Pc(t) {}
    assert s.Pc(1).Idle?;
  }

  lemma Stall(config: BucketConfig, now: real, n: nat, add: nat) returns (done: seq<Action>, s: State)
    requires config.refillRate > 0.0 && 0 < add < U64
    ensures Runs(config, Init(config, now), done, s) && Stalled(config, s, n, add)
  {
    var dt := add as real / config.refillRate;
    done, s := LineUp(config, now, n);
    StalledNext(config, now, s, n, dt, add);
    assert s.Pc(0).Idle?;
    RunsOn(config, Init(config, now), done, s, Tick(dt));
    done, s := done + [Tick(dt)], Next(config, s, Tick(dt));
    assert s.clock - s.lastRefill == dt && s.Pc(0).Idle?;
    CreditExact(config.refillRate, add);
    done := Compute(config, Init(config, now), done, s, 0, add);
    s := Computing(s, 0, add);
  }

  // ----- When the sequential bound survives ----------------------------------------------------------------------

  /** The window bound of the sequential bucket, for one window. */
  predicate Sequential(config: BucketConfig, o: State, s: State) {
    (config.cost * (s.grants - o.grants)) as real <= config.maxTokens as real + config.refillRate * (s.clock - o.clock)
  }

  ghost predicate Window(config: BucketConfig, now: real, before: seq<Action>, o: State, window: seq<Action>, s: State) {
    Runs(config, Init(config, now), before, o) && Runs(config, o, window, s)
  }

  /** ... for every window of every interleaving. */
  ghost predicate AlwaysSequential(config: BucketConfig, now: real) {
    forall before, o, window, s :: Window(config, now, before, o, window, s) ==> Sequential(config, o, s)
  }

  /** As many whole requests as fit into the bucket. */
  lemma {:induction false} WholeRequests(cost: nat, max: nat) returns (k: nat)
    requires cost >= 1
    ensures Repeat(cost, k) <= max < Repeat(cost, k) + cost
    decreases max
  {
    if max < cost {
      k := 0;
    } else {
      k := WholeRequests(cost, max - cost);
      k := k + 1;
    }
  }

  lemma DrainAndTake(config: BucketConfig, o: State, k: nat) returns (window: seq<Action>, s: State)
    requires Stalled(config, o, k, config.cost) && 1 <= config.cost <= config.maxTokens < U64
    requires Repeat(config.cost, k) <= config.maxTokens < Repeat(config.cost, k) + config.cost
    ensures Runs(config, o, window, s) && s.clock == o.clock && s.grants == o.grants + k + 1
  {
    var cost := config.cost;
    assert k > 0 && Repeat(cost, k) >= cost by { RepeatGrows(cost, k); }
    window, s := TakeAll(config, o, [], o, 2, k);
    assert s.Pc(0) == o.Pc(0);
    window := Commit(config, o, window, s, 0, cost);
    s := Committed(s, 0, cost);
    window := Take(config, o, window, s, 0);
    s := Taken(config, s, 0);
  }

  /** Drain the bucket with threads that have passed their refill, then let a stalled refiller write and take
      the tokens of one request: more than a full bucket in no time. */
  lemma OneTooMany(config: BucketConfig, now: real) returns (before: seq<Action>, o: State, window: seq<Action>, s: State)
    requires config.refillRate > 0.0 && 1 <= config.cost <= config.maxTokens < U64
    ensures Window(config, now, before, o, window, s)
    ensures s.clock == o.clock && s.grants >= o.grants && Repeat(config.cost, s.grants - o.grants) > config.maxTokens
  {
    var k := WholeRequests(config.cost, config.maxTokens);
    before, o := Stall(config, now, k, config.cost);
    window, s := DrainAndTake(config, o, k);
  }

  /** Nobody gets a request whose cost exceeds the bucket. */
  lemma {:induction false} NoGrants(config: BucketConfig, start: real, s: State, actions: seq<Action>, s': State)
    requires config.refillRate >= 0.0 && config.cost > config.maxTokens
    requires Invariant(config, start, s) && Runs(config, s, actions, s')
    ensures s'.grants == s.grants
    decreases |actions|
  {
    if actions != [] {
      InvariantStep(config, start, s, actions[0]);
      NoGrants(config, start, Next(config, s, actions[0]), actions[1..], s');
    }
  }

  /** Without refill a state never holds more than one bucket. */
  lemma NoRefill(config: BucketConfig, now: real, before: seq<Action>, o: State)
    requires config.refillRate == 0.0 && Runs(config, Init(config, now), before, o)
    ensures Settled(config, o)
  {
    BalancedRuns(config, now, before, o);
    EntitledOverTime(config, now, before, o);
  }

  lemma NothingPaid(cost: nat, n: int, max: nat, rate: real, length: real)
    requires (cost == 0 || n == 0) && rate >= 0.0 && length >= 0.0
    ensures (cost * n) as real <= max as real + rate * length
  {
    assert cost * n == 0;
    MulMonotone(rate, 0.0, length);
  }

  lemma HoldsIfNothingFits(config: BucketConfig, now: real, before: seq<Action>, o: State, window: seq<Action>, s: State)
    requires config.refillRate >= 0.0 && Window(config, now, before, o, window, s)
    requires config.cost == 0 || config.cost > config.maxTokens
    ensures Sequential(config, o, s)
  {
    if config.cost > config.maxTokens {
      InvariantRuns(config, now, Init(config, now), before, o);
      NoGrants(config, now, o, window, s);
    }
    ClockForward(config, o, window, s);
    NothingPaid(config.cost, s.grants - o.grants, config.maxTokens, config.refillRate, s.clock - o.clock);
  }

  lemma HoldsIfNothingToGain(config: BucketConfig, now: real, before: seq<Action>, o: State, window: seq<Action>, s: State)
    requires config.refillRate >= 0.0 && Window(config, now, before, o, window, s)
    requires config.refillRate == 0.0 || config.cost == 0 || config.cost > config.maxTokens
    ensures Sequential(config, o, s)
  {
    if config.refillRate == 0.0 {
      NoRefill(config, now, before, o);
      OneBucketSuffices(config, now, before, o, window, s);
    } else {
      HoldsIfNothingFits(config, now, before, o, window, s);
    }
  }

  lemma {:induction false} ClockForward(config: BucketConfig, o: State, actions: seq<Action>, s: State)
    requires Runs(config, o, actions, s)
    ensures o.clock <= s.clock
    decreases |actions|
  {
    if actions != [] { ClockForward(config, Next(config, o, actions[0]), actions[1..], s); }
  }

  lemma InNoTime(config: BucketConfig, o: State, s: State)
    requires s.clock == o.clock && s.grants >= o.grants && Repeat(config.cost, s.grants - o.grants) > config.maxTokens
    ensures !Sequential(config, o, s)
  {
    RepeatGrows(config.cost, s.grants - o.grants);
    assert config.refillRate * 0.0 == 0.0;
  }

  /** The window bound of the sequential bucket holds in every interleaving exactly when there is nothing to
      gain: the bucket does not refill, requests are free, or no request ever fits. */
  lemma AlwaysSequentialIff(config: BucketConfig, now: real)
    requires config.refillRate >= 0.0 && config.maxTokens < U64
    ensures AlwaysSequential(config, now) <==>
              config.refillRate == 0.0 || config.cost == 0 || config.cost > config.maxTokens
  {
    if config.refillRate == 0.0 || config.cost == 0 || config.cost > config.maxTokens {
      forall before, o, window, s | Window(config, now, before, o, window, s) ensures Sequential(config, o, s) {
        HoldsIfNothingToGain(config, now, before, o, window, s);
      }
    } else {
      var before, o, window, s := OneTooMany(config, now);
      InNoTime(config, o, s);
    }
  }

  // ----- Three buckets -----------------------------------------------------------------------------------------------

  /** `Stalled`, and `dt` seconds have passed since. */
  ghost predicate LateOpening(config: BucketConfig, s: State, n: nat, dt: real) {
    && s.tokens == config.maxTokens && s.clock == s.lastRefill + dt
    && s.lock == Held(0) && s.Pc(0) == RefillLoad(config.maxTokens) && s.Pc(1).Idle? && Ready(s, 2, 2 + n)
  }

  lemma TickStalled(config: BucketConfig, s: State, n: nat, add: nat, dt: real)
    requires Stalled(config, s, n, add) && add == config.maxTokens && dt >= 0.0
    ensures LateOpening(config, Next(config, s, Tick(dt)), n, dt)
  {
    forall t: nat ensures Next(config, s, Tick(dt)).Pc(t) == s.Pc(t) {}
  }

  /** For every configuration whose bucket is a whole number of requests, a window of length zero in which
      three full buckets are spent: the bound of `InterleavedWindow` is attained. */
  lemma ThreeBucketsInNoTime(config: BucketConfig, now: real, n: nat)
    returns (before: seq<Action>, o: State, window: seq<Action>, s: State)
    requires config.refillRate > 0.0 && 1 <= config.maxTokens == Repeat(config.cost, n) && config.maxTokens < U64
    ensures Window(config, now, before, o, window, s)
    ensures s.clock == o.clock && config.cost * (s.grants - o.grants) == 3 * config.maxTokens
  {
    var dt := config.maxTokens as real / config.refillRate;
    before, o := StalledLate(config, now, 3 * n, dt);
    window, s := ThreeDrains(config, o, n, dt);
    ThreeTimes(config.cost, n);
  }

  lemma ThreeTimes(cost: nat, n: nat)
    ensures cost * (3 * n) == 3 * Repeat(cost, n)
  {
    RepeatGrows(cost, n);
  }

  /** A refiller stalled with a bucket's worth of credit while another bucket's worth of time went by. */
  lemma StalledLate(config: BucketConfig, now: real, n: nat, dt: real) returns (before: seq<Action>, o: State)
    requires config.refillRate > 0.0 && 0 < config.maxTokens < U64 && dt == config.maxTokens as real / config.refillRate
    ensures Runs(config, Init(config, now), before, o) && LateOpening(config, o, n, dt)
  {
    before, o := Stall(config, now, n, config.maxTokens);
    TickStalled(config, o, n, config.maxTokens, dt);
    RunsOn(config, Init(config, now), before, o, Tick(dt));
    before, o := before + [Tick(dt)], Next(config, o, Tick(dt));
  }

  lemma ThreeDrains(config: BucketConfig, o: State, n: nat, dt: real) returns (window: seq<Action>, s: State)
    requires LateOpening(config, o, 3 * n, dt) && config.maxTokens == Repeat(config.cost, n) && 0 < config.maxTokens < U64
    requires config.refillRate > 0.0 && dt == config.maxTokens as real / config.refillRate
    ensures Runs(config, o, window, s) && s.clock == o.clock && s.grants == o.grants + 3 * n
  {
    window, s := FirstBucket(config, o, n, dt);
    window, s := SecondBucket(config, o, n, window, s);
    window, s := ThirdBucket(config, o, n, dt, window, s);
  }

  /** The bucket is empty, `k` times drained, and threads `lo .. hi-1` are still waiting to take. */
  ghost predicate Spent(config: BucketConfig, o: State, s: State, k: nat, n: nat, lo: nat, hi: nat) {
    && s.clock == o.clock && s.lastRefill == o.lastRefill && s.tokens == 0 && s.grants == o.grants + k * n
    && s.Pc(1).Idle? && Ready(s, lo, hi)
  }

  lemma Drain(config: BucketConfig, o: State, done: seq<Action>, s: State, n: nat, lo: nat, hi: nat)
    returns (done': seq<Action>, s': State)
    requires Runs(config, o, done, s) && Ready(s, lo, hi) && lo + n <= hi && s.tokens == Repeat(config.cost, n)
    ensures Runs(config, o, done', s') && SameExcept(s, s', lo, lo + n) && Ready(s', lo + n, hi)
    ensures s'.tokens == 0 && s'.grants == s.grants + n
  {
    done', s' := TakeAll(config, o, done, s, lo, n);
    forall t: nat | lo + n <= t < hi ensures s'.Pc(t).AcquireLoad? { assert s'.Pc(t) == s.Pc(t); }
  }

  lemma ReadyKept(s: State, s': State, t: nat, pc: Pc, lo: nat, hi: nat)
    requires Ready(s, lo, hi) && t < lo && s'.pcs == s.pcs[t := pc]
    ensures Ready(s', lo, hi)
  {
    forall u: nat | lo <= u < hi ensures s'.Pc(u).AcquireLoad? { assert s.Pc(u).AcquireLoad?; }
  }

  lemma FirstBucket(config: BucketConfig, o: State, n: nat, dt: real) returns (window: seq<Action>, s: State)
    requires LateOpening(config, o, 3 * n, dt) && config.maxTokens == Repeat(config.cost, n)
    ensures Runs(config, o, window, s) && Spent(config, o, s, 1, n, 2 + n, 2 + 3 * n)
    ensures s.lock == Held(0) && s.Pc(0) == RefillLoad(config.maxTokens)
  {
    window, s := Drain(config, o, [], o, n, 2, 2 + 3 * n);
    assert s.Pc(0) == o.Pc(0) && s.Pc(1) == o.Pc(1);
  }

  lemma SecondBucket(config: BucketConfig, o: State, n: nat, done: seq<Action>, s: State)
    returns (window: seq<Action>, s': State)
    requires Runs(config, o, done, s) && Spent(config, o, s, 1, n, 2 + n, 2 + 3 * n)
    requires config.maxTokens == Repeat(config.cost, n) && config.maxTokens < U64
    requires s.lock == Held(0) && s.Pc(0) == RefillLoad(config.maxTokens)
    ensures Runs(config, o, window, s') && Spent(config, o, s', 2, n, 2 + 2 * n, 2 + 3 * n)
    ensures s'.lock.Free?
  {
    var max := config.maxTokens;
    window := Commit(config, o, done, s, 0, max);
    s' := Committed(s, 0, max);
    ReadyKept(s, s', 0, AcquireLoad, 2 + n, 2 + 3 * n);
    var s1 := s';
    window, s' := Drain(config, o, window, s', n, 2 + n, 2 + 3 * n);
    assert s'.Pc(1) == s1.Pc(1);
  }

  lemma ThirdBucket(config: BucketConfig, o: State, n: nat, dt: real, done: seq<Action>, s: State)
    returns (window: seq<Action>, s': State)
    requires Runs(config, o, done, s) && Spent(config, o, s, 2, n, 2 + 2 * n, 2 + 3 * n) && s.lock.Free?
    requires config.maxTokens == Repeat(config.cost, n) && 0 < config.maxTokens < U64
    requires config.refillRate > 0.0 && o.clock == o.lastRefill + dt && dt == config.maxTokens as real / config.refillRate
    ensures Runs(config, o, window, s') && s'.clock == o.clock && s'.grants == o.grants + 3 * n
  {
    var max := config.maxTokens;
    CreditExact(config.refillRate, max);
    assert s.clock - s.lastRefill == dt;
    window := Compute(config, o, done, s, 1, max);
    var s1 := Computing(s, 1, max);
    ReadyKept(s, s1, 1, RefillLoad(max), 2 + 2 * n, 2 + 3 * n);
    window := Commit(config, o, window, s1, 1, max);
    s' := Committed(s1, 1, max);
    ReadyKept(s1, s', 1, AcquireLoad, 2 + 2 * n, 2 + 3 * n);
    window, s' := Drain(config, o, window, s', n, 2 + 2 * n, 2 + 3 * n);
  }
}
