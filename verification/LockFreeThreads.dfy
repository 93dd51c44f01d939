/**
 How the number of threads bounds a burst (crates/traffic-control/src/rate_limiter.rs, try_acquire and
 refill_tokens): before the first refill that is stamped within a window takes effect, no thread is granted
 twice, since it has to refill before it asks again.
 */
module LockFreeThreads {
  import opened Basics
  import opened Ledger
  import opened TokenBucket
  import opened LockFreeBucket
  import opened LockFreeBursts

  /** The window's actions are all taken by these threads. */
  predicate By(threads: set<nat>, actions: seq<Action>) {
    forall i :: 0 <= i < |actions| ==> actions[i].Tick? || actions[i].t in threads
  }

  /** The thread has not stamped a refill since it was last granted a request. */
  predicate Unstamped(pc: Pc) { pc.Idle? || pc.Waiting? || pc.Locked? || pc.Measured? }

  /** `g` are the threads granted so far, each once; no refill has been stamped in the window yet. */
  ghost predicate Fresh(o: State, s: State, g: set<nat>) {
    && o.clock <= s.clock && s.grants == o.grants + |g|
    && forall t {:trigger s.Pc(t)} :: t in g ==> Unstamped(s.Pc(t))
  }

  /** The first refill stamped in the window is computed and not yet written; its thread holds the lock. */
  ghost predicate Refilling(o: State, s: State, g: set<nat>) {
    && o.clock <= s.lastRefill <= s.clock && s.grants == o.grants + |g|
    && s.lock.Held? && s.Pc(s.lock.owner).Pending() > 0
    && forall t {:trigger s.Pc(t)} :: t in g && t != s.lock.owner ==> Unstamped(s.Pc(t))
  }

  /** That refill has taken effect. */
  predicate Refilled(o: State, s: State, g: set<nat>) {
    o.clock <= s.lastRefill <= s.clock && s.grants == o.grants + |g| && s.PendingCredit() == 0
  }

  ghost predicate Early(o: State, s: State, g: set<nat>) { Fresh(o, s, g) || Refilling(o, s, g) }

  /** Who has been granted once action `a` is taken in state `s`. */
  function Granted(s: State, a: Action, g: set<nat>): set<nat> {
    if a.CasToAcquire? && !a.spurious && s.Pc(a.t).AcquireCas? && s.tokens == s.Pc(a.t).seen then g + {a.t} else g
  }

  lemma FreshStep(config: BucketConfig, o: State, s: State, a: Action, g: set<nat>)
    requires Exclusive(s) && Enabled(s, a) && Fresh(o, s, g)
    ensures var s', g' := Next(config, s, a), Granted(s, a, g); Early(o, s', g') || Refilled(o, s', g')
  {
    var s', g' := Next(config, s, a), Granted(s, a, g);
    if !a.Tick? { assert s.Pc(a.t) == s.Pc(a.t); }
    forall t | t in g' && (a.Tick? || t != a.t) ensures s'.Pc(t) == s.Pc(t) && t in g { OthersStay(config, s, a, t); }
  }

  lemma RefillingStep(config: BucketConfig, o: State, s: State, a: Action, g: set<nat>)
    requires Exclusive(s) && Enabled(s, a) && Refilling(o, s, g)
    ensures var s', g' := Next(config, s, a), Granted(s, a, g); Early(o, s', g') || Refilled(o, s', g')
  {
    var s', g', owner := Next(config, s, a), Granted(s, a, g), s.lock.owner;
    assert s.Pc(owner).Holds();
    if !a.Tick? {
      assert s.Pc(a.t).Holds() <==> a.t == owner;
      if a.t != owner { OthersStay(config, s, a, owner); }
    }
    forall t | t in g' && (a.Tick? || t != a.t) ensures s'.Pc(t) == s.Pc(t) && t in g { OthersStay(config, s, a, t); }
  }

  lemma EarlyStep(config: BucketConfig, o: State, s: State, a: Action, g: set<nat>)
    requires Exclusive(s) && Enabled(s, a) && Early(o, s, g)
    ensures var s', g' := Next(config, s, a), Granted(s, a, g); Early(o, s', g') || Refilled(o, s', g')
  {
    if Fresh(o, s, g) { FreshStep(config, o, s, a, g); } else { RefillingStep(config, o, s, a, g); }
  }

  /** A window splits at the point where its first refill takes effect, if there is one: up to there the
      threads in `h` have been granted once each. */
  lemma {:induction false} SplitAtRefill(config: BucketConfig, start: real, o: State, s: State, window: seq<Action>,
                                         s': State, threads: set<nat>, g: set<nat>)
    returns (u: State, rest: seq<Action>, h: set<nat>)
    requires config.refillRate >= 0.0 && Invariant(config, start, s) && Early(o, s, g) && g <= threads
    requires Runs(config, s, window, s') && By(threads, window)
    ensures Invariant(config, start, u) && Runs(config, u, rest, s') && h <= threads
    ensures Refilled(o, u, h) || (u == s' && Early(o, u, h))
    decreases |window|
  {
    if window == [] {
      u, rest, h := s, [], g;
    } else {
      var a := window[0];
      var next, granted := Next(config, s, a), Granted(s, a, g);
      InvariantStep(config, start, s, a);
      EarlyStep(config, o, s, a, g);
      if Refilled(o, next, granted) {
        u, rest, h := next, window[1..], granted;
      } else {
        u, rest, h := SplitAtRefill(config, start, o, next, window[1..], s', threads, granted);
      }
    }
  }

  /** One full bucket, `n` requests and the refill of the window. */
  predicate Within(config: BucketConfig, o: State, s: State, n: nat) {
    (config.cost * (s.grants - o.grants)) as real
      <= (config.maxTokens + config.cost * n) as real + config.refillRate * (s.clock - o.clock)
  }

  lemma WithinMore(config: BucketConfig, o: State, s: State, n: nat, m: nat)
    requires Within(config, o, s, n) && n <= m
    ensures Within(config, o, s, m)
  {
    assert config.cost * n <= config.cost * m;
  }

  lemma Chain(cost: int, rate: real, max: int, tokens: int, late: int, all: int, early: int, since: real, length: real)
    requires rate >= 0.0 && since <= length && tokens <= max && all == late + early
    requires (cost * late) as real <= tokens as real + rate * since
    ensures (cost * all) as real <= (max + cost * early) as real + rate * length
  {
    MulMonotone(rate, since, length);
    assert cost * all == cost * late + cost * early;
  }

  lemma BoundAfter(config: BucketConfig, o: State, u: State, s: State, h: set<nat>)
    requires config.refillRate >= 0.0 && Refilled(o, u, h) && u.tokens <= config.maxTokens
    requires (config.cost * (s.grants - u.grants)) as real
               <= (u.tokens + u.PendingCredit()) as real + config.refillRate * (s.clock - u.lastRefill)
    ensures Within(config, o, s, |h|)
  {
    Chain(config.cost, config.refillRate, config.maxTokens, u.tokens, s.grants - u.grants, s.grants - o.grants, |h|,
          s.clock - u.lastRefill, s.clock - o.clock);
  }

  lemma BoundBefore(config: BucketConfig, o: State, s: State, h: set<nat>)
    requires config.refillRate >= 0.0 && Early(o, s, h)
    ensures Within(config, o, s, |h|)
  {
    assert config.refillRate * 0.0 == 0.0;
    Chain(config.cost, config.refillRate, config.maxTokens, 0, 0, s.grants - o.grants, |h|, 0.0, s.clock - o.clock);
  }

  /** Every stretch of every interleaved run: one full bucket, one request per thread that takes part, and the
      refill of the window. A single thread thus gets at most one request beyond the sequential bound. */
  lemma ThreadWindow(config: BucketConfig, now: real, before: seq<Action>, o: State, window: seq<Action>, s: State,
                     threads: set<nat>)
    requires config.refillRate >= 0.0
    requires Runs(config, Init(config, now), before, o) && Runs(config, o, window, s) && By(threads, window)
    ensures Within(config, o, s, |threads|)
  {
    InvariantRuns(config, now, Init(config, now), before, o);
    assert Fresh(o, o, {});
    var u, rest, h := SplitAtRefill(config, now, o, o, window, s, threads, {});
    SubsetSize(h, threads);
    if Refilled(o, u, h) {
      BoundFrom(config, now, u, rest, s);
      BoundAfter(config, o, u, s, h);
    } else {
      BoundBefore(config, o, s, h);
    }
    WithinMore(config, o, s, |h|, |threads|);
  }

  // ----- The bound is reached ------------------------------------------------------------------------------------

  function ThreadsFrom(lo: nat, n: nat): (threads: set<nat>)
    ensures |threads| == n && forall t :: t in threads <==> lo <= t < lo + n
    decreases n
  {
    if n == 0 then {} else ThreadsFrom(lo, n - 1) + {lo + n - 1}
  }

  lemma AddsOn(done: seq<Action>, more: seq<Action>, all: seq<Action>, lo: nat, n: nat, t: nat)
    requires Adds(done, more, lo, lo + n) && Adds(more, all, t, t + 1) && lo <= t < lo + n
    ensures Adds(done, all, lo, lo + n)
  {
    forall i | |done| <= i < |all| ensures !all[i].Tick? && lo <= all[i].t < lo + n {
      if i < |more| { assert all[i] == more[i]; }
    }
  }

  /** Idle and up to date, with the tokens of `j` requests. */
  predicate Rested(config: BucketConfig, s: State, t: nat, j: nat) {
    s.lock.Free? && s.Pc(t).Idle? && s.clock == s.lastRefill && s.tokens == Repeat(config.cost, j)
  }

  /** One thread spends what is left, request by request. */
  lemma {:induction false} SpendAlone(config: BucketConfig, o: State, done: seq<Action>, s: State, lo: nat, n: nat, t: nat, j: nat)
    returns (done': seq<Action>, s': State)
    requires Runs(config, o, done, s) && Adds([], done, lo, lo + n) && lo <= t < lo + n && Rested(config, s, t, j)
    ensures Runs(config, o, done', s') && Adds([], done', lo, lo + n) && s'.clock == s.clock && s'.grants == s.grants + j
    decreases j
  {
    if j == 0 {
      done', s' := done, s;
    } else {
      RepeatGrows(config.cost, j);
      var passed := Pass(config, o, done, s, t);
      AddsOn([], done, passed, lo, n, t);
      var taken := Take(config, o, passed, Passed(s, t), t);
      AddsOn([], passed, taken, lo, n, t);
      done', s' := SpendAlone(config, o, taken, Taken(config, Passed(s, t), t), lo, n, t, j - 1);
    }
  }

  /** One thread refills the bucket and spends it. */
  lemma RefillAndSpend(config: BucketConfig, o: State, done: seq<Action>, s: State, lo: nat, n: nat, t: nat, add: nat, k: nat)
    returns (done': seq<Action>, s': State)
    requires Runs(config, o, done, s) && Adds([], done, lo, lo + n) && lo <= t < lo + n
    requires s.lock.Free? && s.Pc(t).Idle? && 0 < add == Credit(s.clock - s.lastRefill, config.refillRate)
    requires 0 <= s.tokens && s.tokens + add == config.maxTokens == Repeat(config.cost, k) && config.maxTokens < U64 && k > 0
    ensures Runs(config, o, done', s') && Adds([], done', lo, lo + n) && s'.clock == s.clock && s'.grants == s.grants + k
  {
    var computed := Compute(config, o, done, s, t, add);
    AddsOn([], done, computed, lo, n, t);
    var s1 := Computing(s, t, add);
    var written := Commit(config, o, computed, s1, t, add);
    AddsOn([], computed, written, lo, n, t);
    var s2 := Committed(s1, t, add);
    RepeatGrows(config.cost, k);
    var taken := Take(config, o, written, s2, t);
    AddsOn([], written, taken, lo, n, t);
    done', s' := SpendAlone(config, o, taken, Taken(config, s2, t), lo, n, t, k - 1);
  }

  /** Threads lined up before a full bucket, and time for `n` requests has gone by since the last refill. */
  lemma LateLine(config: BucketConfig, now: real, n: nat) returns (before: seq<Action>, o: State)
    requires config.refillRate > 0.0 && 0 < Repeat(config.cost, n) < U64
    ensures Runs(config, Init(config, now), before, o) && Ready(o, 2, 2 + n) && o.lock.Free? && o.tokens == config.maxTokens
    ensures Credit(o.clock - o.lastRefill, config.refillRate) == Repeat(config.cost, n)
  {
    var dt := Repeat(config.cost, n) as real / config.refillRate;
    before, o := LineUp(config, now, n);
    CreditExact(config.refillRate, Repeat(config.cost, n));
    RunsOn(config, Init(config, now), before, o, Tick(dt));
    forall t: nat | 2 <= t < 2 + n ensures Next(config, o, Tick(dt)).Pc(t).AcquireLoad? { assert o.Pc(t).AcquireLoad?; }
    assert (o.clock + dt) - o.lastRefill == dt;
    before, o := before + [Tick(dt)], Next(config, o, Tick(dt));
  }

  /** For every bucket that is a whole number `k` of requests and any `n` of at most `k` threads, a window of
      length zero in which these threads get `k + n` requests: the bound of `ThreadWindow` is attained. */
  lemma ThreadBoundIsReached(config: BucketConfig, now: real, n: nat, k: nat)
    returns (before: seq<Action>, o: State, window: seq<Action>, s: State, threads: set<nat>)
    requires config.refillRate > 0.0 && config.cost >= 1 && 1 <= n <= k && config.maxTokens == Repeat(config.cost, k) < U64
    ensures Window(config, now, before, o, window, s) && By(threads, window) && |threads| == n
    ensures s.clock == o.clock && config.cost * (s.grants - o.grants) == config.maxTokens + config.cost * |threads|
  {
    RepeatMonotone(config.cost, n, k);
    before, o := LateLine(config, now, n);
    threads := ThreadsFrom(2, n);
    window, s := TakeAll(config, o, [], o, 2, n);
    window, s := RefillAndSpend(config, o, window, s, 2, n, 2, Repeat(config.cost, n), k);
    assert By(threads, window);
    RepeatGrows(config.cost, k);
    assert config.cost * (k + n) == config.cost * k + config.cost * n;
  }

  lemma {:induction false} RepeatMonotone(cost: nat, n: nat, k: nat)
    requires n <= k
    ensures Repeat(cost, n) <= Repeat(cost, k) && (n >= 1 && cost >= 1 ==> Repeat(cost, n) > 0)
  {
    if n < k { RepeatMonotone(cost, n, k - 1); }
  }
}
