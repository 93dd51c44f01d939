/**
 The same token bucket under any number of threads (crates/traffic-control/src/rate_limiter.rs,
 try_acquire and refill_tokens), at the granularity of single loads, compare-and-swap attempts and
 lock operations. A weak compare-and-swap may fail for no reason.

 `grants`, `credited`, `entitled` and `stamped` are history variables: they record what happened and
 decide nothing. `entitled` is the refill rate times the time since the start, `stamped` its value
 when the refill time was last stamped.
 */
module LockFreeBucket {
  import opened Ledger
  import opened TokenBucket
  import opened Basics

  /** Where a thread stands. From `Locked` to `Unlock` it holds the refill lock. */
  datatype Pc =
    | Idle
    | Waiting
    | Locked
    | Measured(elapsed: real)
    | RefillLoad(add: nat)
    | RefillCas(add: nat, seen: int)
    | Unlock
    | AcquireLoad
    | AcquireCas(seen: int)
  {
    predicate Holds() { Locked? || Measured? || RefillLoad? || RefillCas? || Unlock? }

    /** Credit computed but not yet written to the token counter. */
    function Pending(): nat { if RefillLoad? || RefillCas? then add else 0 }
  }

  datatype Lock = Free | Held(owner: nat)

  datatype State = State(clock: real, tokens: int, lastRefill: real, lock: Lock, pcs: map<nat, Pc>,
                         grants: nat, credited: int, entitled: real, stamped: real)
  {
    function Pc(t: nat): Pc { if t in pcs then pcs[t] else Idle }

    function Go(t: nat, pc: Pc): State { this.(pcs := pcs[t := pc]) }

    function PendingCredit(): nat { if lock.Held? then Pc(lock.owner).Pending() else 0 }
  }

  datatype Action =
    | Tick(dt: real)
    | Enter(t: nat)
    | TakeLock(t: nat)
    | ReadElapsed(t: nat)
    | Stamp(t: nat)
    | LoadToRefill(t: nat)
    | CasToRefill(t: nat, spurious: bool)
    | ReleaseLock(t: nat)
    | LoadToAcquire(t: nat)
    | CasToAcquire(t: nat, spurious: bool)

  predicate Enabled(s: State, a: Action) {
    match a
    case Tick(dt) => dt >= 0.0
    case Enter(t) => s.Pc(t).Idle?
    case TakeLock(t) => s.Pc(t).Waiting? && s.lock.Free?
    case ReadElapsed(t) => s.Pc(t).Locked?
    case Stamp(t) => s.Pc(t).Measured?
    case LoadToRefill(t) => s.Pc(t).RefillLoad?
    case CasToRefill(t, _) => s.Pc(t).RefillCas?
    case ReleaseLock(t) => s.Pc(t).Unlock?
    case LoadToAcquire(t) => s.Pc(t).AcquireLoad?
    case CasToAcquire(t, _) => s.Pc(t).AcquireCas?
  }

  /** The capped, wrapping sum a refilling thread tries to write. */
  function NewValue(config: BucketConfig, seen: int, add: nat): int {
    var sum := (seen + add) % U64;
    if sum <= config.maxTokens then sum else config.maxTokens
  }

  function Next(config: BucketConfig, s: State, a: Action): State
    requires Enabled(s, a)
  {
    match a
    case Tick(dt) => s.(clock := s.clock + dt, entitled := s.entitled + config.refillRate * dt)
    case Enter(t) => s.Go(t, Waiting)
    case TakeLock(t) => s.(lock := Held(t)).Go(t, Locked)
    case ReadElapsed(t) => s.Go(t, Measured(s.clock - s.lastRefill))
    case Stamp(t) =>
      var add := Credit(s.Pc(t).elapsed, config.refillRate);
      s.(lastRefill := s.clock, stamped := s.entitled).Go(t, if add > 0 then RefillLoad(add) else Unlock)
    case LoadToRefill(t) => s.Go(t, RefillCas(s.Pc(t).add, s.tokens))
    case CasToRefill(t, spurious) =>
      var pc := s.Pc(t);
      if spurious || s.tokens != pc.seen then s.Go(t, RefillLoad(pc.add))
      else
        var new_ := NewValue(config, pc.seen, pc.add);
        s.(tokens := new_, credited := s.credited + new_ - pc.seen).Go(t, Unlock)
    case ReleaseLock(t) => s.(lock := Free).Go(t, AcquireLoad)
    case LoadToAcquire(t) => s.Go(t, if s.tokens < config.cost then Idle else AcquireCas(s.tokens))
    case CasToAcquire(t, spurious) =>
      var pc := s.Pc(t);
      if spurious || s.tokens != pc.seen then s.Go(t, AcquireLoad)
      else s.(tokens := pc.seen - config.cost, grants := s.grants + 1).Go(t, Idle)
  }

  ghost predicate Runs(config: BucketConfig, s: State, actions: seq<Action>, s': State)
    decreases |actions|
  {
    if actions == [] then s' == s
    else Enabled(s, actions[0]) && Runs(config, Next(config, s, actions[0]), actions[1..], s')
  }

  function Init(config: BucketConfig, now: real): State {
    State(now, config.maxTokens, now, Free, map[], 0, 0, 0.0, 0.0)
  }

  // ----- What every step keeps -------------------------------------------------------------------

  ghost predicate Exclusive(s: State) {
    forall t :: s.Pc(t).Holds() <==> s.lock == Held(t)
  }

  ghost predicate Threads(config: BucketConfig, s: State) {
    && (forall t :: s.Pc(t).Measured? ==> 0.0 <= s.Pc(t).elapsed <= s.clock - s.lastRefill)
    && (forall t :: s.Pc(t).AcquireCas? ==> s.Pc(t).seen >= config.cost)
  }

  ghost predicate Balanced(config: BucketConfig, s: State) {
    && 0 <= s.tokens <= config.maxTokens
    && s.lastRefill <= s.clock
    && config.cost * s.grants + s.tokens == config.maxTokens + s.credited
    && (s.credited + s.PendingCredit()) as real <= s.stamped <= s.entitled
  }

  /** The history variables are what they are meant to be. */
  ghost predicate Tied(config: BucketConfig, start: real, s: State) {
    && s.entitled == config.refillRate * (s.clock - start)
    && s.stamped == config.refillRate * (s.lastRefill - start)
  }

  ghost predicate Invariant(config: BucketConfig, start: real, s: State) {
    Exclusive(s) && Threads(config, s) && Balanced(config, s) && Tied(config, start, s)
  }

  lemma ExclusiveStep(config: BucketConfig, s: State, a: Action)
    requires Exclusive(s) && Enabled(s, a)
    ensures Exclusive(Next(config, s, a))
  {
  }

  /** A step moves only its own thread. */
  lemma OthersStay(config: BucketConfig, s: State, a: Action, u: nat)
    requires Enabled(s, a) && (a.Tick? || a.t != u)
    ensures Next(config, s, a).Pc(u) == s.Pc(u)
  {
  }

  lemma ThreadsStep(config: BucketConfig, s: State, a: Action)
    requires Exclusive(s) && Threads(config, s) && s.lastRefill <= s.clock && Enabled(s, a)
    ensures Threads(config, Next(config, s, a))
  {
    var s' := Next(config, s, a);
    forall u
      ensures s'.Pc(u).Measured? ==> 0.0 <= s'.Pc(u).elapsed <= s'.clock - s'.lastRefill
      ensures s'.Pc(u).AcquireCas? ==> s'.Pc(u).seen >= config.cost
    {
      if a.Tick? || a.t != u {
        OthersStay(config, s, a, u);
        if s.Pc(u).Measured? { assert s.Pc(u).Holds(); }
      }
    }
  }

  lemma StampCredit(config: BucketConfig, start: real, s: State, t: nat)
    requires config.refillRate >= 0.0 && Tied(config, start, s)
    requires s.Pc(t).Measured? && 0.0 <= s.Pc(t).elapsed <= s.clock - s.lastRefill
    ensures Credit(s.Pc(t).elapsed, config.refillRate) as real <= s.entitled - s.stamped
  {
    var e := s.Pc(t).elapsed;
    MulMonotone(config.refillRate, 0.0, e);
    MulMonotone(config.refillRate, e, s.clock - s.lastRefill);
    MulSplit(config.refillRate, s.lastRefill - start, s.clock - s.lastRefill);
  }

  lemma TiedStep(config: BucketConfig, start: real, s: State, a: Action)
    requires Tied(config, start, s) && Enabled(s, a)
    ensures Tied(config, start, Next(config, s, a))
  {
    if a.Tick? { MulSplit(config.refillRate, s.clock - start, a.dt); }
  }

  /** Only the lock holder has credit under way, so only its steps change it. */
  lemma PendingStep(config: BucketConfig, s: State, a: Action)
    requires Exclusive(s) && Enabled(s, a)
    ensures !a.Stamp? && !a.CasToRefill? ==>
      && Next(config, s, a).PendingCredit() == s.PendingCredit()
      && Next(config, s, a).credited == s.credited && Next(config, s, a).lastRefill == s.lastRefill
  {
    ExclusiveStep(config, s, a);
    if a.TakeLock? || a.ReleaseLock? {
    } else if s.lock.Held? && !a.Tick? && a.t != s.lock.owner {
      OthersStay(config, s, a, s.lock.owner);
    }
  }

  lemma BalancedTick(config: BucketConfig, s: State, a: Action)
    requires config.refillRate >= 0.0 && Balanced(config, s) && Enabled(s, a) && a.Tick?
    ensures Balanced(config, Next(config, s, a))
  {
    MulMonotone(config.refillRate, 0.0, a.dt);
  }

  lemma BalancedStamp(config: BucketConfig, start: real, s: State, a: Action)
    requires config.refillRate >= 0.0 && Invariant(config, start, s) && Enabled(s, a) && a.Stamp?
    ensures Balanced(config, Next(config, s, a))
  {
    assert s.Pc(a.t).Holds();
    StampCredit(config, start, s, a.t);
  }

  lemma BalancedRefill(config: BucketConfig, s: State, a: Action)
    requires Exclusive(s) && Balanced(config, s) && Enabled(s, a) && a.CasToRefill?
    ensures Balanced(config, Next(config, s, a))
  {
    assert s.Pc(a.t).Holds();
    assert 0 <= NewValue(config, s.tokens, s.Pc(a.t).add) <= s.tokens + s.Pc(a.t).add;
  }

  lemma BalancedGrant(config: BucketConfig, s: State, a: Action)
    requires Exclusive(s) && Threads(config, s) && Balanced(config, s) && Enabled(s, a) && a.CasToAcquire?
    ensures Balanced(config, Next(config, s, a))
  {
    PendingStep(config, s, a);
    MulDifference(config.cost, s.grants + 1, s.grants);
  }

  lemma BalancedStep(config: BucketConfig, start: real, s: State, a: Action)
    requires config.refillRate >= 0.0 && Invariant(config, start, s) && Enabled(s, a)
    ensures Balanced(config, Next(config, s, a))
  {
    match a
    case Tick(_) => BalancedTick(config, s, a);
    case Stamp(_) => BalancedStamp(config, start, s, a);
    case CasToRefill(_, _) => BalancedRefill(config, s, a);
    case CasToAcquire(_, _) => BalancedGrant(config, s, a);
    case _ => PendingStep(config, s, a);
  }

  lemma InvariantStep(config: BucketConfig, start: real, s: State, a: Action)
    requires config.refillRate >= 0.0 && Invariant(config, start, s) && Enabled(s, a)
    ensures Invariant(config, start, Next(config, s, a))
  {
    ExclusiveStep(config, s, a);
    ThreadsStep(config, s, a);
    BalancedStep(config, start, s, a);
    TiedStep(config, start, s, a);
  }

  lemma {:induction false} InvariantRuns(config: BucketConfig, start: real, s: State, actions: seq<Action>, s': State)
    requires config.refillRate >= 0.0 && Invariant(config, start, s) && Runs(config, s, actions, s')
    ensures Invariant(config, start, s')
    decreases |actions|
  {
    if actions != [] {
      InvariantStep(config, start, s, actions[0]);
      InvariantRuns(config, start, Next(config, s, actions[0]), actions[1..], s');
    }
  }

  lemma BalancedRuns(config: BucketConfig, now: real, actions: seq<Action>, s: State)
    requires config.refillRate >= 0.0 && Runs(config, Init(config, now), actions, s)
    ensures Balanced(config, s) && Exclusive(s)
  {
    InvariantRuns(config, now, Init(config, now), actions, s);
  }

  /** In every interleaving: the counter stays within the bucket, no token is lost or made up, at most
      one thread refills, and the credit is at most the refill rate times the elapsed time. */
  lemma Conservation(config: BucketConfig, now: real, actions: seq<Action>, s: State)
    requires config.refillRate >= 0.0 && Runs(config, Init(config, now), actions, s)
    ensures 0 <= s.tokens <= config.maxTokens
    ensures config.cost * s.grants + s.tokens == config.maxTokens + s.credited
    ensures s.credited as real <= config.refillRate * (s.clock - now)
    ensures Exclusive(s)
  {
    BalancedRuns(config, now, actions, s);
    EntitledOverTime(config, now, actions, s);
  }

  // ----- Windows of interleaved runs ---------------------------------------------------------------

  /** Progress since the window opened in state `o`. Before the first stamp only the refill that was
      already under way can be credited. */
  ghost predicate BeforeStamp(o: State, s: State, max: nat) {
    && s.stamped <= o.entitled
    && (s.credited <= o.credited || (s.credited <= o.credited + max && s.PendingCredit() == 0))
  }

  /** The refill of the first stamp is computed but not yet credited. */
  ghost predicate FirstRefill(o: State, s: State, max: nat) {
    && o.entitled <= s.stamped && s.PendingCredit() > 0 && s.credited <= o.credited + max
  }

  ghost predicate AfterRefill(o: State, s: State, max: nat) {
    && o.entitled <= s.stamped
    && (s.credited - o.credited + s.PendingCredit() - 2 * max) as real <= s.stamped - o.entitled
  }

  ghost predicate Windowed(config: BucketConfig, o: State, s: State) {
    && o.entitled <= s.entitled
    && (|| BeforeStamp(o, s, config.maxTokens)
        || FirstRefill(o, s, config.maxTokens)
        || AfterRefill(o, s, config.maxTokens))
  }

  lemma StampStep(config: BucketConfig, start: real, o: State, s: State, a: Action)
    requires config.refillRate >= 0.0 && Invariant(config, start, s) && Enabled(s, a) && a.Stamp?
    requires Windowed(config, o, s)
    ensures Windowed(config, o, Next(config, s, a))
  {
    assert s.Pc(a.t).Holds() && s.PendingCredit() == 0;
    StampCredit(config, start, s, a.t);
  }

  lemma CasStep(config: BucketConfig, o: State, s: State, a: Action)
    requires Exclusive(s) && Balanced(config, s) && Enabled(s, a) && a.CasToRefill?
    requires Windowed(config, o, s)
    ensures Windowed(config, o, Next(config, s, a))
  {
    assert s.Pc(a.t).Holds();
    assert 0 <= NewValue(config, s.tokens, s.Pc(a.t).add) <= s.tokens + s.Pc(a.t).add;
  }

  lemma WindowedStep(config: BucketConfig, start: real, o: State, s: State, a: Action)
    requires config.refillRate >= 0.0 && Invariant(config, start, s) && Enabled(s, a) && Windowed(config, o, s)
    ensures Windowed(config, o, Next(config, s, a))
  {
    match a
    case Tick(dt) => MulMonotone(config.refillRate, 0.0, dt);
    case Stamp(_) => StampStep(config, start, o, s, a);
    case CasToRefill(_, _) => CasStep(config, o, s, a);
    case _ => PendingStep(config, s, a);
  }

  lemma {:induction false} WindowedRuns(config: BucketConfig, start: real, o: State, s: State,
                                        actions: seq<Action>, s': State)
    requires config.refillRate >= 0.0 && Invariant(config, start, s) && Windowed(config, o, s)
    requires Runs(config, s, actions, s')
    ensures Windowed(config, o, s') && Invariant(config, start, s')
    decreases |actions|
  {
    if actions != [] {
      InvariantStep(config, start, s, actions[0]);
      WindowedStep(config, start, o, s, actions[0]);
      WindowedRuns(config, start, o, Next(config, s, actions[0]), actions[1..], s');
    }
  }

  /** Every stretch of every interleaved run, from any reachable state: three full buckets plus the
      refill of the window. One bucket is what stands in the counter, one is credit a stalled refiller
      had computed before the window, one is the refill measured from before the window. */
  lemma InterleavedWindow(config: BucketConfig, now: real, before: seq<Action>, o: State,
                          window: seq<Action>, s: State)
    requires config.refillRate >= 0.0
    requires Runs(config, Init(config, now), before, o) && Runs(config, o, window, s)
    ensures (config.cost * (s.grants - o.grants) - 3 * config.maxTokens) as real
              <= config.refillRate * (s.clock - now) - config.refillRate * (o.clock - now)
  {
    WindowOfRun(config, now, before, o, window, s);
    MulDifference(config.cost, s.grants, o.grants);
    EntitledOverTime(config, now, before, o);
    EntitledFrom(config, now, o, window, s);
  }

  lemma WindowOfRun(config: BucketConfig, now: real, before: seq<Action>, o: State, window: seq<Action>, s: State)
    requires config.refillRate >= 0.0
    requires Runs(config, Init(config, now), before, o) && Runs(config, o, window, s)
    ensures Balanced(config, o) && Balanced(config, s) && Windowed(config, o, s)
  {
    InvariantRuns(config, now, Init(config, now), before, o);
    WindowedRuns(config, now, o, o, window, s);
  }

  lemma {:induction false} EntitledFrom(config: BucketConfig, start: real, o: State, actions: seq<Action>, s: State)
    requires Runs(config, o, actions, s) && o.entitled == config.refillRate * (o.clock - start)
    ensures s.entitled == config.refillRate * (s.clock - start)
    decreases |actions|
  {
    if actions != [] {
      var a := actions[0];
      if a.Tick? { MulSplit(config.refillRate, o.clock - start, a.dt); }
      EntitledFrom(config, start, Next(config, o, a), actions[1..], s);
    }
  }

  lemma EntitledOverTime(config: BucketConfig, now: real, actions: seq<Action>, s: State)
    requires Runs(config, Init(config, now), actions, s)
    ensures s.entitled == config.refillRate * (s.clock - now)
  {
    EntitledFrom(config, now, Init(config, now), actions, s);
  }

  lemma MulDifference(cost: int, a: int, b: int)
    ensures cost * (a - b) == cost * a - cost * b
  {
  }

  // ----- Windows from a given state ---------------------------------------------------------------------

  /** Credit written or under way since the state `o` is covered by what was under way then and by the
      time between the stamps. */
  ghost predicate Progress(o: State, s: State) {
    (s.credited + s.PendingCredit()) as real <= (o.credited + o.PendingCredit()) as real + (s.stamped - o.stamped)
  }

  lemma ProgressStamp(config: BucketConfig, start: real, o: State, s: State, a: Action)
    requires config.refillRate >= 0.0 && Invariant(config, start, s) && Enabled(s, a) && a.Stamp? && Progress(o, s)
    ensures Progress(o, Next(config, s, a))
  {
    assert s.Pc(a.t).Holds() && s.PendingCredit() == 0;
    StampCredit(config, start, s, a.t);
  }

  lemma ProgressCas(config: BucketConfig, o: State, s: State, a: Action)
    requires Exclusive(s) && Balanced(config, s) && Enabled(s, a) && a.CasToRefill? && Progress(o, s)
    ensures Progress(o, Next(config, s, a))
  {
    assert s.Pc(a.t).Holds();
    assert 0 <= NewValue(config, s.tokens, s.Pc(a.t).add) <= s.tokens + s.Pc(a.t).add;
  }

  lemma ProgressStep(config: BucketConfig, start: real, o: State, s: State, a: Action)
    requires config.refillRate >= 0.0 && Invariant(config, start, s) && Enabled(s, a) && Progress(o, s)
    ensures Progress(o, Next(config, s, a))
  {
    match a
    case Stamp(_) => ProgressStamp(config, start, o, s, a);
    case CasToRefill(_, _) => ProgressCas(config, o, s, a);
    case _ => PendingStep(config, s, a);
  }

  lemma {:induction false} ProgressRuns(config: BucketConfig, start: real, o: State, s: State,
                                        actions: seq<Action>, s': State)
    requires config.refillRate >= 0.0 && Invariant(config, start, s) && Progress(o, s)
    requires Runs(config, s, actions, s')
    ensures Progress(o, s') && Invariant(config, start, s')
    decreases |actions|
  {
    if actions != [] {
      ProgressStep(config, start, o, s, actions[0]);
      InvariantStep(config, start, s, actions[0]);
      ProgressRuns(config, start, o, Next(config, s, actions[0]), actions[1..], s');
    }
  }

  lemma TiedDifference(config: BucketConfig, start: real, o: State, s: State)
    requires Tied(config, start, o) && Tied(config, start, s)
    ensures s.entitled - o.stamped == config.refillRate * (s.clock - o.lastRefill)
  {
    MulSplit(config.refillRate, o.lastRefill - start, s.clock - o.lastRefill);
  }

  lemma BoundFrom(config: BucketConfig, start: real, o: State, window: seq<Action>, s: State)
    requires config.refillRate >= 0.0 && Invariant(config, start, o) && Runs(config, o, window, s)
    ensures (config.cost * (s.grants - o.grants)) as real
              <= (o.tokens + o.PendingCredit()) as real + config.refillRate * (s.clock - o.lastRefill)
  {
    ProgressRuns(config, start, o, o, window, s);
    TiedDifference(config, start, o, s);
    MulDifference(config.cost, s.grants, o.grants);
  }

  /** Every stretch of every interleaved run: what is granted is at most what stands in the counter, what a
      refiller has computed, and what the time since the last stamp earns. */
  lemma OpeningBound(config: BucketConfig, now: real, before: seq<Action>, o: State, window: seq<Action>, s: State)
    requires config.refillRate >= 0.0
    requires Runs(config, Init(config, now), before, o) && Runs(config, o, window, s)
    ensures (config.cost * (s.grants - o.grants)) as real
              <= (o.tokens + o.PendingCredit()) as real + config.refillRate * (s.clock - o.lastRefill)
  {
    InvariantRuns(config, now, Init(config, now), before, o);
    BoundFrom(config, now, o, window, s);
  }

  lemma RateSplit(rate: real, a: real, b: real, c: real)
    ensures rate * (c - a) == rate * (b - a) + rate * (c - b)
  {
    MulSplit(rate, b - a, c - b);
  }

  /** No more than one full bucket could be drawn at once in this state. */
  predicate Settled(config: BucketConfig, o: State) {
    (o.tokens + o.PendingCredit()) as real + config.refillRate * (o.clock - o.lastRefill) <= config.maxTokens as real
  }

  /** From such a state the window bound is that of the sequential bucket. */
  lemma OneBucketSuffices(config: BucketConfig, now: real, before: seq<Action>, o: State, window: seq<Action>, s: State)
    requires config.refillRate >= 0.0 && Settled(config, o)
    requires Runs(config, Init(config, now), before, o) && Runs(config, o, window, s)
    ensures (config.cost * (s.grants - o.grants)) as real
              <= config.maxTokens as real + config.refillRate * (s.clock - o.clock)
  {
    OpeningBound(config, now, before, o, window, s);
    RateSplit(config.refillRate, o.lastRefill, o.clock, s.clock);
  }
}
