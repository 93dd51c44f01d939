/**
 The provider circuit breaker (crates/traffic-control/src/circuit_breaker.rs), every method one atomic
 step. The counters are 64 bits wide and wrap; `probes` is carried from one HalfOpen episode to the next.
 */
module CircuitBreaker {
  import opened Basics

  const U32: nat := 0x1_0000_0000

  datatype CircuitState = Closed | Open | HalfOpen

  datatype Config = Config(failureThreshold: nat, openDuration: real, halfOpenMaxAttempts: nat)

  datatype Breaker = Breaker(state: CircuitState, lastFailure: Option<real>, failures: nat, successes: nat,
                             halfOpenSuccesses: nat, probes: nat)
  {
    predicate Fits() { failures < U64 && successes < U64 && halfOpenSuccesses < U64 && probes < U64 }
  }

  const Fresh: Breaker := Breaker(Closed, None, 0, 0, 0, 0)

  function Inc(n: nat): nat { (n + 1) % U64 }

  function Dec(n: nat): nat { if n == 0 then U64 - 1 else n - 1 }

  // ----- Specification of the steps -----------------------------------------------------------

  function Transitioned(b: Breaker, state: CircuitState): Breaker {
    match state
    case Closed => b.(state := Closed, failures := 0, halfOpenSuccesses := 0, probes := 0)
    case Open => b.(state := Open, halfOpenSuccesses := 0)
    case HalfOpen => b.(state := HalfOpen)
  }

  predicate Cooled(config: Config, b: Breaker, now: real) {
    b.lastFailure.Some? && now - b.lastFailure.value >= config.openDuration
  }

  /** The request that finds the circuit cooled down is let through without taking a probe slot. */
  function Allow(config: Config, b: Breaker, now: real): (Breaker, bool) {
    match b.state
    case Closed => (b, true)
    case Open => if Cooled(config, b, now) then (Transitioned(b, HalfOpen), true) else (b, false)
    case HalfOpen =>
      if b.probes >= config.halfOpenMaxAttempts then (b, false) else (b.(probes := Inc(b.probes)), true)
  }

  function Success(config: Config, b: Breaker): Breaker {
    var c := b.(successes := Inc(b.successes), failures := 0);
    if c.state != HalfOpen then c
    else
      var d := c.(probes := Dec(c.probes), halfOpenSuccesses := Inc(c.halfOpenSuccesses));
      if d.halfOpenSuccesses >= config.halfOpenMaxAttempts then Transitioned(d, Closed) else d
  }

  function Failure(config: Config, b: Breaker, now: real): Breaker {
    var c := b.(failures := Inc(b.failures), lastFailure := Some(now));
    var d := if c.failures >= config.failureThreshold then Transitioned(c, Open) else c;
    if d.state == HalfOpen then Transitioned(d.(probes := Dec(d.probes)), Open) else d
  }

  /** A probe guard dropped unresolved gives its slot back and then records a failure. */
  function Abandon(config: Config, b: Breaker, now: real): Breaker {
    Failure(config, if b.probes > 0 then b.(probes := Dec(b.probes)) else b, now)
  }

  datatype Event =
    | Asked(time: real)
    | Succeeded(time: real)
    | Failed(time: real)
    | Dropped(time: real)
  {
    predicate Bad() { Failed? || Dropped? }
  }

  /** The next state, and whether a request was admitted by this step. */
  function Next(config: Config, b: Breaker, e: Event): (Breaker, bool) {
    match e
    case Asked(now) => Allow(config, b, now)
    case Succeeded(_) => (Success(config, b), false)
    case Failed(now) => (Failure(config, b, now), false)
    case Dropped(now) => (Abandon(config, b, now), false)
  }

  // ----- The breaker object and its probe guard --------------------------------------------------

  class CircuitBreaker {
    const config: Config
    var state: CircuitState
    var lastFailure: Option<real>
    var failureCount: nat
    var successCount: nat
    var halfOpenSuccesses: nat
    var probesInFlight: nat

    function View(): Breaker
      reads this
    {
      Breaker(state, lastFailure, failureCount, successCount, halfOpenSuccesses, probesInFlight)
    }

    constructor (config: Config)
      ensures this.config == config && View() == Fresh
    {
      this.config := config;
      state, lastFailure := Closed, None;
      failureCount, successCount, halfOpenSuccesses, probesInFlight := 0, 0, 0, 0;
    }

    method TransitionTo(newState: CircuitState)
      modifies this
      ensures View() == Transitioned(old(View()), newState)
    {
      state := newState;
      match newState
      case Closed =>
        failureCount, halfOpenSuccesses, probesInFlight := 0, 0, 0;
      case Open =>
        halfOpenSuccesses := 0;
      case HalfOpen =>
    }

    method AllowRequest(now: real) returns (admitted: bool)
      requires View().Fits()
      modifies this
      ensures (View(), admitted) == Next(config, old(View()), Asked(now)) && View().Fits()
    {
      match state
      case Closed =>
        admitted := true;
      case Open =>
        admitted := lastFailure.Some? && now - lastFailure.value >= config.openDuration;
        if admitted { TransitionTo(HalfOpen); }
      case HalfOpen =>
        var current := probesInFlight;
        probesInFlight := Inc(probesInFlight);
        admitted := current < config.halfOpenMaxAttempts;
        if !admitted { probesInFlight := Dec(probesInFlight); }
    }

    method RecordSuccess(ghost now: real)
      requires View().Fits()
      modifies this
      ensures (View(), false) == Next(config, old(View()), Succeeded(now)) && View().Fits()
    {
      successCount := Inc(successCount);
      failureCount := 0;
      if state == HalfOpen {
        probesInFlight := Dec(probesInFlight);
        halfOpenSuccesses := Inc(halfOpenSuccesses);
        if halfOpenSuccesses >= config.halfOpenMaxAttempts { TransitionTo(Closed); }
      }
    }

    method RecordFailure(now: real)
      requires View().Fits()
      modifies this
      ensures (View(), false) == Next(config, old(View()), Failed(now)) && View().Fits()
    {
      failureCount := Inc(failureCount);
      lastFailure := Some(now);
      if failureCount >= config.failureThreshold { TransitionTo(Open); }
      if state == HalfOpen {
        probesInFlight := Dec(probesInFlight);
        TransitionTo(Open);
      }
    }
  }

  class ProbeGuard {
    const breaker: CircuitBreaker
    var resolved: bool

    constructor (breaker: CircuitBreaker)
      ensures this.breaker == breaker && !resolved
    {
      this.breaker := breaker;
      resolved := false;
    }

    method MarkSuccess(ghost now: real)
      requires breaker.View().Fits()
      modifies this, breaker
      ensures resolved && breaker.View() == Success(breaker.config, old(breaker.View())) && breaker.View().Fits()
    {
      resolved := true;
      breaker.RecordSuccess(now);
    }

    method MarkFailure(now: real)
      requires breaker.View().Fits()
      modifies this, breaker
      ensures resolved && breaker.View() == Failure(breaker.config, old(breaker.View()), now) && breaker.View().Fits()
    {
      resolved := true;
      breaker.RecordFailure(now);
    }

    /** Runs when the guard goes out of scope. */
    method Drop(now: real)
      requires breaker.View().Fits()
      modifies breaker
      ensures breaker.View().Fits()
      ensures breaker.View()
           == if resolved then old(breaker.View()) else Next(breaker.config, old(breaker.View()), Dropped(now)).0
    {
      if !resolved {
        if breaker.probesInFlight > 0 { breaker.probesInFlight := Dec(breaker.probesInFlight); }
        breaker.RecordFailure(now);
      }
    }
  }

  // ----- Runs -----------------------------------------------------------------------------------

  datatype Run = Run(config: Config, events: seq<Event>, states: seq<Breaker>, admitted: seq<bool>) {
    predicate Sized() { |admitted| == |events| && |states| == |events| + 1 }

    ghost predicate Valid() {
      && Sized() && config.halfOpenMaxAttempts < U32 && 1 <= config.failureThreshold < U32
      && states[0] == Fresh
      && (forall i, j :: 0 <= i < j < |events| ==> events[i].time <= events[j].time)
      && (forall i {:trigger StepAt(i)} :: 0 <= i < |events| ==> StepAt(i))
    }

    predicate StepAt(i: int)
      requires Sized() && 0 <= i < |events|
    {
      (states[i + 1], admitted[i]) == Next(config, states[i], events[i])
    }

    /** Requests let through by events `i .. j-1`. */
    function Admissions(i: int, j: int): nat
      requires Sized() && 0 <= i <= j <= |events|
      decreases j
    {
      if i == j then 0 else Admissions(i, j - 1) + if admitted[j - 1] then 1 else 0
    }

    function Successes(i: int, j: int): nat
      requires Sized() && 0 <= i <= j <= |events|
      decreases j
    {
      if i == j then 0 else Successes(i, j - 1) + if events[j - 1].Succeeded? then 1 else 0
    }

    /** Failures recorded since the last success among the first `j` events. */
    function TrailingFailures(j: int): nat
      requires Sized() && 0 <= j <= |events|
    {
      if j == 0 || events[j - 1].Succeeded? then 0
      else TrailingFailures(j - 1) + if events[j - 1].Bad() then 1 else 0
    }

    /** Event `i` moves the open circuit to HalfOpen, and HalfOpen it is before each event up to `j-1`. */
    ghost predicate Episode(i: int, j: int)
      requires Sized() && 0 <= i < j <= |events|
    {
      && states[i].state == Open && states[i + 1].state == HalfOpen
      && forall k {:trigger states[k]} :: i < k < j ==> states[k].state == HalfOpen
    }
  }

  /** What holds of the state after every prefix of a run. */
  ghost predicate Healthy(r: Run, j: int)
    requires r.Sized() && 0 <= j <= |r.events|
  {
    var b, m := r.states[j], r.config.halfOpenMaxAttempts;
    && b.Fits()
    && (b.state == Closed ==> b.failures == r.TrailingFailures(j) < r.config.failureThreshold)
    && (b.state != HalfOpen ==> b.halfOpenSuccesses == 0)
    && (b.state == HalfOpen ==> b.halfOpenSuccesses == 0 || b.halfOpenSuccesses < m)
  }

  lemma NextFits(config: Config, b: Breaker, e: Event)
    requires b.Fits()
    ensures Next(config, b, e).0.Fits()
  {
  }

  lemma {:induction false} AlwaysHealthy(r: Run, j: int)
    requires r.Valid() && 0 <= j <= |r.events|
    ensures Healthy(r, j)
  {
    if j > 0 {
      AlwaysHealthy(r, j - 1);
      assert r.StepAt(j - 1);
      NextFits(r.config, r.states[j - 1], r.events[j - 1]);
    }
  }

  /** A closed circuit has seen fewer than `failureThreshold` failures since the last success. */
  lemma ClosedMeansHealthy(r: Run, j: int)
    requires r.Valid() && 0 <= j <= |r.events| && r.states[j].state == Closed
    ensures r.TrailingFailures(j) < r.config.failureThreshold
  {
    AlwaysHealthy(r, j);
  }

  /** From Closed, one more failure opens the circuit exactly when it is the threshold-th in a row. */
  lemma TripsExactlyAtThreshold(r: Run, j: int)
    requires r.Valid() && 0 <= j < |r.events| && r.states[j].state == Closed
    ensures r.states[j + 1].state == Open <==>
              r.events[j].Bad() && r.TrailingFailures(j + 1) == r.config.failureThreshold
    ensures r.states[j + 1].state != HalfOpen
  {
    AlwaysHealthy(r, j);
    assert r.StepAt(j);
  }

  // ----- Cooling down -----------------------------------------------------------------------------

  /** After a failure at `t` has left the circuit Open, it stays Open and admits nothing until
      `t + openDuration`. */
  lemma {:induction false} OpenHoldsOff(r: Run, i: int, j: int)
    requires r.Valid() && 0 <= i < j <= |r.events|
    requires r.events[i].Bad() && r.states[i + 1].state == Open
    requires forall k :: i < k < j ==> r.events[k].time < r.events[i].time + r.config.openDuration
    ensures r.states[j].state == Open
    ensures r.states[j].lastFailure.Some? && r.states[j].lastFailure.value >= r.events[i].time
    ensures r.Admissions(i, j) == 0
  {
    assert r.StepAt(j - 1);
    if j > i + 1 {
      OpenHoldsOff(r, i, j - 1);
      assert r.events[i].time <= r.events[j - 1].time;
    }
  }

  // ----- HalfOpen episodes --------------------------------------------------------------------------

  /** In the middle of an episode: successes are counted exactly, and a probe counter in its normal
      range bounds the admissions that are still unanswered. */
  ghost predicate Counted(r: Run, i: int, j: int)
    requires r.Sized() && 0 <= i < j <= |r.events|
  {
    var b, m := r.states[j], r.config.halfOpenMaxAttempts;
    && b.halfOpenSuccesses == r.Successes(i, j)
    && r.Admissions(i, j) <= 1 + m + r.Successes(i, j)
    && (b.probes <= m ==> r.Admissions(i, j) <= 1 + b.probes + r.Successes(i, j))
  }

  lemma {:induction false} EpisodeCounts(r: Run, i: int, j: int)
    requires r.Valid() && 0 <= i < j <= |r.events|
    requires r.Episode(i, j) && r.states[j].state == HalfOpen
    ensures Counted(r, i, j)
  {
    assert r.StepAt(j - 1);
    AlwaysHealthy(r, j - 1);
    if j > i + 1 {
      assert r.states[j - 1].state == HalfOpen;
      EpisodeCounts(r, i, j - 1);
    } else {
      assert r.Admissions(i, i) == 0 && r.Successes(i, i) == 0;
    }
  }

  /** Whatever probe counter it inherits, an episode has admitted at most one request more than
      `halfOpenMaxAttempts` plus the successes recorded so far in it, and never more than twice
      `halfOpenMaxAttempts`. */
  lemma EpisodeBound(r: Run, i: int, j: int)
    requires r.Valid() && 0 <= i < j <= |r.events| && r.Episode(i, j)
    ensures r.Admissions(i, j) <= 1 + r.config.halfOpenMaxAttempts + r.Successes(i, j)
    ensures r.config.halfOpenMaxAttempts >= 1 ==> r.Admissions(i, j) <= 2 * r.config.halfOpenMaxAttempts
  {
    if r.states[j].state == HalfOpen {
      EpisodeCounts(r, i, j);
      AlwaysHealthy(r, j);
    } else {
      assert r.StepAt(j - 1);
      assert r.states[j - 1].state == HalfOpen;
      EpisodeCounts(r, i, j - 1);
      AlwaysHealthy(r, j - 1);
    }
  }

  lemma {:induction false} EpisodeStart(r: Run, j: int) returns (i: int)
    requires r.Valid() && 0 <= j <= |r.events| && r.states[j].state == HalfOpen
    ensures 0 <= i < j && r.Episode(i, j)
  {
    assert r.StepAt(j - 1);
    if r.states[j - 1].state == HalfOpen { i := EpisodeStart(r, j - 1); } else { i := j - 1; }
  }

  lemma {:induction false} EpisodeIsClean(r: Run, i: int, j: int)
    requires r.Valid() && 0 <= i < j <= |r.events|
    requires r.Episode(i, j) && r.states[j].state == HalfOpen
    ensures forall k :: i <= k < j ==> !r.events[k].Bad()
  {
    assert r.StepAt(j - 1);
    if j > i + 1 {
      assert r.states[j - 1].state == HalfOpen;
      EpisodeIsClean(r, i, j - 1);
    }
  }

  /** The circuit closes again only through one unbroken HalfOpen episode, by the success that
      completes the required number, with no failure anywhere in between. */
  lemma ClosedOnlyByProving(r: Run, j: int) returns (i: int)
    requires r.Valid() && 0 <= j < |r.events|
    requires r.states[j].state != Closed && r.states[j + 1].state == Closed
    ensures 0 <= i < j && r.Episode(i, j + 1) && r.events[j].Succeeded?
    ensures forall k :: i <= k <= j ==> !r.events[k].Bad()
    ensures var m := r.config.halfOpenMaxAttempts; r.Successes(i, j + 1) == if m == 0 then 1 else m
  {
    assert r.StepAt(j);
    AlwaysHealthy(r, j);
    i := EpisodeStart(r, j);
    EpisodeCounts(r, i, j);
    EpisodeIsClean(r, i, j);
  }

  // ----- The bound is reached, and a lone prober gets stuck -------------------------------------------

  function Start(config: Config): Run { Run(config, [], [Fresh], []) }

  /** The run continued by one event. */
  function Then(r: Run, e: Event): (r': Run)
    requires r.Sized()
    ensures r'.Sized() && r'.config == r.config && |r'.events| == |r.events| + 1
  {
    var (b, ok) := Next(r.config, r.states[|r.events|], e);
    Run(r.config, r.events + [e], r.states + [b], r.admitted + [ok])
  }

  lemma ThenValid(r: Run, e: Event)
    requires r.Valid() && forall k :: 0 <= k < |r.events| ==> r.events[k].time <= e.time
    ensures Then(r, e).Valid()
  {
    var r' := Then(r, e);
    forall i | 0 <= i < |r'.events| ensures r'.StepAt(i) { assert i < |r.events| ==> r.StepAt(i); }
  }

  lemma {:induction false} ThenAdmissions(r: Run, e: Event, i: int, j: int)
    requires r.Sized() && 0 <= i <= j <= |r.events|
    ensures Then(r, e).Admissions(i, j) == r.Admissions(i, j)
    decreases j
  {
    if i < j { ThenAdmissions(r, e, i, j - 1); }
  }

  /** A run under construction whose current episode, begun at event `i`, has admitted `n` requests. */
  ghost predicate Probing(r: Run, i: int, n: nat, probes: nat, successes: nat) {
    && r.Valid() && 0 <= i < |r.events| && r.Episode(i, |r.events|)
    && (forall k :: 0 <= k < |r.events| ==> r.events[k].time <= r.config.openDuration)
    && r.Admissions(i, |r.events|) == n
    && var b := r.states[|r.events|];
       b.state == HalfOpen && b.probes == probes && b.halfOpenSuccesses == successes
  }

  lemma MoreProbes(r: Run, i: int, n: nat, probes: nat, successes: nat) returns (r': Run)
    requires Probing(r, i, n, probes, successes) && probes < r.config.halfOpenMaxAttempts
    ensures r'.config == r.config && Probing(r', i, n + 1, probes + 1, successes)
    ensures r'.states[|r'.events|].failures == r.states[|r.events|].failures && r'.states[i] == r.states[i]
  {
    var e := Asked(r.config.openDuration);
    r' := Then(r, e);
    ThenValid(r, e);
    ThenAdmissions(r, e, i, |r.events|);
    assert r'.states[|r.events|] == r.states[|r.events|];
  }

  lemma FreedSlot(r: Run, i: int, n: nat, probes: nat, successes: nat) returns (r': Run)
    requires Probing(r, i, n, probes, successes) && probes > 0 && successes + 1 < r.config.halfOpenMaxAttempts
    ensures r'.config == r.config && Probing(r', i, n, probes - 1, successes + 1)
  {
    var e := Succeeded(r.config.openDuration);
    r' := Then(r, e);
    ThenValid(r, e);
    ThenAdmissions(r, e, i, |r.events|);
    assert r'.states[|r.events|] == r.states[|r.events|];
  }

  /** A run of failures that trips the circuit at time 0, and the request that finds it cooled down. */
  lemma FirstProbe(config: Config) returns (r: Run, i: int)
    requires 1 <= config.failureThreshold < U32 && config.halfOpenMaxAttempts < U32 && config.openDuration >= 0.0
    ensures r.config == config && Probing(r, i, 1, 0, 0)
    ensures r.states[|r.events|].failures == config.failureThreshold && r.states[i].probes == 0
  {
    r, i := Start(config), 0;
    while i < config.failureThreshold
      invariant 0 <= i <= config.failureThreshold && r.config == config
      invariant r.Valid() && |r.events| == i && forall k :: 0 <= k < i ==> r.events[k] == Failed(0.0)
      invariant var b := r.states[i];
                b.state == (if i < config.failureThreshold then Closed else Open) && b.failures == i && b.probes == 0
                && b.halfOpenSuccesses == 0 && (i > 0 ==> b.lastFailure == Some(0.0))
    {
      ThenValid(r, Failed(0.0));
      r, i := Then(r, Failed(0.0)), i + 1;
    }
    var e := Asked(config.openDuration);
    ThenValid(r, e);
    ThenAdmissions(r, e, i, i);
    r := Then(r, e);
    assert r.Admissions(i, i) == 0;
  }

  /** For every configuration some episode of some run admits all of the `2 * halfOpenMaxAttempts`
      requests: with the default of one attempt, two. */
  lemma EpisodeBoundIsTight(config: Config) returns (r: Run, i: int)
    requires 1 <= config.failureThreshold < U32 && 1 <= config.halfOpenMaxAttempts < U32 && config.openDuration >= 0.0
    ensures r.config == config && r.Valid() && 0 <= i < |r.events| && r.Episode(i, |r.events|)
    ensures r.Admissions(i, |r.events|) == 2 * config.halfOpenMaxAttempts
  {
    r, i := FirstProbe(config);
    var m := config.halfOpenMaxAttempts;
    for k := 0 to m
      invariant r.config == config && Probing(r, i, 1 + k, k, 0)
    {
      r := MoreProbes(r, i, 1 + k, k, 0);
    }
    for k := 0 to m - 1
      invariant r.config == config && Probing(r, i, 1 + m + k, m, k)
    {
      r := FreedSlot(r, i, 1 + m + k, m, k);
      r := MoreProbes(r, i, 1 + m + k, m - 1, k + 1);
    }
  }

  /** One caller that asks again and again and reports success whenever it is let through. */
  function LoneProber(config: Config, b: Breaker, times: seq<real>): Breaker
    decreases |times|
  {
    if times == [] then b
    else
      var (c, ok) := Allow(config, b, times[0]);
      LoneProber(config, if ok then Success(config, c) else c, times[1..])
  }

  lemma {:induction false} StaysClosed(config: Config, b: Breaker, times: seq<real>)
    requires b.state == Closed
    ensures LoneProber(config, b, times).state == Closed
    decreases |times|
  {
    if times != [] { StaysClosed(config, Success(config, b), times[1..]); }
  }

  lemma {:induction false} StaysStuck(config: Config, b: Breaker, times: seq<real>)
    requires b.state == HalfOpen && b.probes >= config.halfOpenMaxAttempts
    ensures LoneProber(config, b, times) == b
    decreases |times|
  {
    if times != [] { StaysStuck(config, b, times[1..]); }
  }

  lemma {:induction false} WorksItsWay(config: Config, b: Breaker, times: seq<real>)
    requires b.state == HalfOpen && b.probes < config.halfOpenMaxAttempts < U32
    requires b.halfOpenSuccesses < config.halfOpenMaxAttempts <= b.halfOpenSuccesses + |times|
    ensures LoneProber(config, b, times).state == Closed
    decreases |times|
  {
    var c := Success(config, Allow(config, b, times[0]).0);
    if c.state == Closed {
      StaysClosed(config, c, times[1..]);
    } else {
      WorksItsWay(config, c, times[1..]);
    }
  }

  /** A single caller whose probes all succeed, and who asks often enough, closes a cooled-down circuit
      exactly when at most one success is required or the probe counter inherited from earlier episodes
      lies between one and the limit. Otherwise its first success, which gives back a slot that it never
      took, leaves the counter wrapped or still at the limit, and the circuit stays HalfOpen for good. */
  lemma LoneProberRecoversIff(config: Config, b: Breaker, times: seq<real>)
    requires b.state == Open && b.Fits() && b.halfOpenSuccesses == 0 && config.halfOpenMaxAttempts < U32
    requires times != [] && |times| >= config.halfOpenMaxAttempts && Cooled(config, b, times[0])
    ensures LoneProber(config, b, times).state == Closed <==>
              config.halfOpenMaxAttempts <= 1 || 1 <= b.probes <= config.halfOpenMaxAttempts
  {
    var c := Success(config, Allow(config, b, times[0]).0);
    if config.halfOpenMaxAttempts <= 1 {
      StaysClosed(config, c, times[1..]);
    } else if 1 <= b.probes <= config.halfOpenMaxAttempts {
      WorksItsWay(config, c, times[1..]);
    } else {
      StaysStuck(config, c, times[1..]);
    }
  }

  /** Both cases occur: right after the first trip the counter is zero, and when a failure ends an episode
      in which one more request was let through, its slot is carried over. */
  lemma BothCountersOccur(config: Config) returns (r: Run, i: int, j: int)
    requires 1 <= config.failureThreshold < U32 && 1 <= config.halfOpenMaxAttempts < U32 && config.openDuration >= 0.0
    ensures r.config == config && r.Valid() && 0 <= i < j <= |r.events|
    ensures r.states[i].state == Open && r.states[i].probes == 0
    ensures r.states[j].state == Open && r.states[j].probes == 1
  {
    r, i := FirstProbe(config);
    assert r.StepAt(i);
    r := MoreProbes(r, i, 1, 0, 0);
    assert r.StepAt(i) && r.states[i + 1].state == HalfOpen;
    var e := Failed(config.openDuration);
    ThenValid(r, e);
    assert Then(r, e).states[i] == r.states[i];
    r, j := Then(r, e), |r.events| + 1;
  }
}
