/**
 The two fuel meters (crates/core/src/engine/hot_swap.rs, SisInterlock, and
 crates/core/src/engine/fuel_monitor.rs, FuelMonitor) and the gateway that feeds both the fuel of every
 finished request (crates/core/src/lib.rs). Each method is one atomic step; utilisation is an exact ratio.
 */
module FuelInterlock {
  import opened Basics

  datatype SisState = Normal | PreShutdown | EmergencyShutdown | Locked

  datatype EsdState = Normal | Warning | Critical | EmergencyShutdown

  datatype Sis = Sis(limit: nat, consumed: nat, state: SisState)

  datatype Monitor = Monitor(quota: nat, consumed: nat, state: EsdState)

  // ----- Specification -----------------------------------------------------------------------------------

  /** Nine tenths of the limit, in 64-bit arithmetic. */
  function PreLevel(limit: nat): nat { limit * 9 % U64 / 10 }

  /** The verdict on a total. A Normal verdict is returned but not stored. */
  function SisVerdict(limit: nat, total: nat): SisState {
    if total >= limit then SisState.EmergencyShutdown
    else if total >= PreLevel(limit) then SisState.PreShutdown
    else SisState.Normal
  }

  function SisConsume(s: Sis, amount: nat): Sis {
    var total := (s.consumed + amount) % U64;
    var verdict := SisVerdict(s.limit, total);
    s.(consumed := total, state := if verdict == SisState.Normal then s.state else verdict)
  }

  /** Thresholds 100, 95 and 90 percent of the quota; `StateIsUtilization` relates them to the ratio. With a
      zero quota the ratio is infinite, or undefined and below every threshold. */
  function ComputeState(quota: nat, consumed: nat): EsdState {
    if quota == 0 && consumed == 0 then EsdState.Normal
    else if consumed >= quota then EsdState.EmergencyShutdown
    else if 100 * consumed >= 95 * quota then EsdState.Critical
    else if 100 * consumed >= 90 * quota then EsdState.Warning
    else EsdState.Normal
  }

  function Saturated(n: nat): nat { if n < U64 then n else U64 - 1 }

  function MonitorConsume(m: Monitor, fuel: nat): Monitor {
    m.(consumed := (m.consumed + fuel) % U64, state := ComputeState(m.quota, Saturated(m.consumed + fuel)))
  }

  // ----- The two meters --------------------------------------------------------------------------------------

  class SisInterlock {
    const fuelLimit: nat
    var fuelConsumed: nat
    var state: SisState

    function View(): Sis
      reads this
    {
      Sis(fuelLimit, fuelConsumed, state)
    }

    constructor (fuelLimit: nat)
      ensures View() == Sis(fuelLimit, 0, SisState.Normal)
    {
      this.fuelLimit := fuelLimit;
      fuelConsumed, state := 0, SisState.Normal;
    }

    method ConsumeFuel(amount: nat) returns (verdict: SisState)
      modifies this
      ensures View() == SisConsume(old(View()), amount) && verdict == SisVerdict(fuelLimit, fuelConsumed)
    {
      fuelConsumed := (fuelConsumed + amount) % U64;
      if fuelConsumed >= fuelLimit {
        state := SisState.EmergencyShutdown;
        return SisState.EmergencyShutdown;
      } else if fuelConsumed >= fuelLimit * 9 % U64 / 10 {
        state := SisState.PreShutdown;
        return SisState.PreShutdown;
      }
      return SisState.Normal;
    }
  }

  class FuelMonitor {
    const fuelQuota: nat
    var fuelConsumed: nat
    var state: EsdState

    function View(): Monitor
      reads this
    {
      Monitor(fuelQuota, fuelConsumed, state)
    }

    constructor (fuelQuota: nat)
      ensures View() == Monitor(fuelQuota, 0, EsdState.Normal)
    {
      this.fuelQuota := fuelQuota;
      fuelConsumed, state := 0, EsdState.Normal;
    }

    method Consume(fuel: nat) returns (trapped: bool)
      modifies this
      ensures View() == MonitorConsume(old(View()), fuel) && (trapped <==> state == EsdState.EmergencyShutdown)
    {
      var newTotal := Saturated(fuelConsumed + fuel);
      fuelConsumed := (fuelConsumed + fuel) % U64;
      state := ComputeState(fuelQuota, newTotal);
      trapped := state == EsdState.EmergencyShutdown;
    }
  }

  // ----- The meters agree ----------------------------------------------------------------------------------------

  /** One is in emergency shutdown exactly when the other is; PreShutdown matches Warning or Critical. */
  predicate Agree(s: SisState, m: EsdState) {
    && (s == SisState.EmergencyShutdown <==> m == EsdState.EmergencyShutdown)
    && (s == SisState.PreShutdown <==> m == EsdState.Warning || m == EsdState.Critical)
  }

  function FeedSis(s: Sis, amounts: seq<nat>): Sis
    decreases |amounts|
  {
    if amounts == [] then s else FeedSis(SisConsume(s, amounts[0]), amounts[1..])
  }

  function FeedMonitor(m: Monitor, amounts: seq<nat>): Monitor
    decreases |amounts|
  {
    if amounts == [] then m else FeedMonitor(MonitorConsume(m, amounts[0]), amounts[1..])
  }

  function Sum(amounts: seq<nat>): nat {
    if amounts == [] then 0 else amounts[0] + Sum(amounts[1..])
  }

  function NewSis(quota: nat): Sis { Sis(quota, 0, SisState.Normal) }

  function NewMonitor(quota: nat): Monitor { Monitor(quota, 0, EsdState.Normal) }

  /** The ratio thresholds in whole numbers. */
  lemma RatioAtLeast(consumed: nat, quota: nat, percent: nat)
    requires quota > 0
    ensures consumed as real / quota as real >= percent as real / 100.0 <==> 100 * consumed >= percent * quota
  {
    var x, q, p := consumed as real, quota as real, percent as real / 100.0;
    var ratio := x / q;
    assert ratio * q == x;
    if ratio >= p { Scale(q, p, ratio); } else { ScaleStrict(q, ratio, p); }
    assert p * q * 100.0 == (percent * quota) as real;
  }

  lemma Scale(q: real, a: real, b: real)
    requires q > 0.0 && a <= b
    ensures a * q <= b * q
  {
  }

  lemma ScaleStrict(q: real, a: real, b: real)
    requires q > 0.0 && a < b
    ensures a * q < b * q
  {
  }

  /** The state is the one that comparing consumed / quota with 1.0, 0.95 and 0.90 gives. */
  lemma StateIsUtilization(quota: nat, consumed: nat)
    requires quota > 0
    ensures var utilization := consumed as real / quota as real;
            ComputeState(quota, consumed) ==
              if utilization >= 1.0 then EsdState.EmergencyShutdown
              else if utilization >= 0.95 then EsdState.Critical
              else if utilization >= 0.90 then EsdState.Warning
              else EsdState.Normal
  {
    RatioAtLeast(consumed, quota, 100);
    RatioAtLeast(consumed, quota, 95);
    RatioAtLeast(consumed, quota, 90);
  }

  /** The two verdicts on one total differ exactly from the 64-bit, rounded-down nine tenths of the quota up to
      the true nine tenths, and on nothing consumed of a zero quota. */
  lemma VerdictsAgreeIff(quota: nat, total: nat)
    ensures Agree(SisVerdict(quota, total), ComputeState(quota, total)) <==>
              !(PreLevel(quota) <= total && 10 * total < 9 * quota) && !(quota == 0 && total == 0)
  {
    assert 10 * PreLevel(quota) <= 9 * quota;
  }

  /** The meters after some fuel has been accounted: the verdicts on the total. */
  predicate InStep(s: Sis, m: Monitor, quota: nat, total: nat) {
    s == Sis(quota, total, SisVerdict(quota, total)) && m == Monitor(quota, total, ComputeState(quota, total))
  }

  /** ... or nothing has been accounted yet. */
  predicate Metered(s: Sis, m: Monitor, quota: nat, total: nat) {
    (total == 0 && s == NewSis(quota) && m == NewMonitor(quota)) || InStep(s, m, quota, total)
  }

  lemma ConsumeInStep(s: Sis, m: Monitor, quota: nat, total: nat, amount: nat)
    requires Metered(s, m, quota, total) && total + amount < U64
    ensures InStep(SisConsume(s, amount), MonitorConsume(m, amount), quota, total + amount)
  {
  }

  lemma {:induction false} FedInStep(s: Sis, m: Monitor, quota: nat, total: nat, amounts: seq<nat>)
    requires Metered(s, m, quota, total) && total + Sum(amounts) < U64
    ensures Metered(FeedSis(s, amounts), FeedMonitor(m, amounts), quota, total + Sum(amounts))
    ensures amounts != [] ==> InStep(FeedSis(s, amounts), FeedMonitor(m, amounts), quota, total + Sum(amounts))
    decreases |amounts|
  {
    if amounts != [] {
      var a := amounts[0];
      ConsumeInStep(s, m, quota, total, a);
      FedInStep(SisConsume(s, a), MonitorConsume(m, a), quota, total + a, amounts[1..]);
    }
  }

  predicate AgreeOn(quota: nat, amounts: seq<nat>) {
    Agree(FeedSis(NewSis(quota), amounts).state, FeedMonitor(NewMonitor(quota), amounts).state)
  }

  ghost predicate AlwaysAgree(quota: nat) {
    forall amounts :: Sum(amounts) < U64 ==> AgreeOn(quota, amounts)
  }

  /** Nine tenths of the quota come out exact. */
  predicate Exact(quota: nat) { quota > 0 && quota % 10 == 0 && 9 * quota < U64 }

  lemma PreLevelExact(quota: nat, k: nat)
    requires quota == 10 * k && 9 * quota < U64
    ensures PreLevel(quota) == 9 * k
  {
    assert quota * 9 % U64 == 10 * (9 * k);
  }

  lemma ExactVerdicts(quota: nat, total: nat)
    requires Exact(quota)
    ensures Agree(SisVerdict(quota, total), ComputeState(quota, total))
  {
    PreLevelExact(quota, quota / 10);
  }

  lemma ExactAgrees(quota: nat, amounts: seq<nat>)
    requires Exact(quota) && Sum(amounts) < U64
    ensures AgreeOn(quota, amounts)
  {
    if amounts != [] {
      FedInStep(NewSis(quota), NewMonitor(quota), quota, 0, amounts);
      ExactVerdicts(quota, Sum(amounts));
    }
  }

  lemma FedOnce(quota: nat, amount: nat)
    requires amount < U64
    ensures Sum([amount]) == amount
    ensures AgreeOn(quota, [amount]) <==> Agree(SisVerdict(quota, amount), ComputeState(quota, amount))
  {
    assert [amount][1..] == [];
    FedInStep(NewSis(quota), NewMonitor(quota), quota, 0, [amount]);
  }

  lemma PreLevelBelow(quota: nat)
    requires 0 < quota < U64 && !Exact(quota)
    ensures 10 * PreLevel(quota) < 9 * quota && PreLevel(quota) < U64
  {
  }

  /** Fed the same amounts, one at a time, the two meters always agree exactly when nine tenths of the quota
      are a whole number computed without overflow: for quotas that are multiples of ten and whose ninefold
      fits 64 bits. */
  lemma MetersAgreeIff(quota: nat)
    requires quota < U64
    ensures AlwaysAgree(quota) <==> Exact(quota)
  {
    if Exact(quota) {
      forall amounts | Sum(amounts) < U64 ensures AgreeOn(quota, amounts) { ExactAgrees(quota, amounts); }
    } else {
      var level := if quota == 0 then 0 else PreLevel(quota);
      if quota > 0 { PreLevelBelow(quota); }
      FedOnce(quota, level);
      VerdictsAgreeIff(quota, level);
    }
  }

  /** Totals beyond 64 bits are another matter: then the meters can disagree whatever the quota. */
  lemma OverflowDisagrees(quota: nat)
    requires quota < U64
    ensures !AgreeOn(quota, [U64 - 1, 1, 0])
  {
    var amounts := [U64 - 1, 1, 0];
    assert amounts[1..] == [1, 0] && [1, 0][1..] == [0] && [0][1..] == [];
    var s := SisConsume(SisConsume(SisConsume(NewSis(quota), U64 - 1), 1), 0);
    var m := MonitorConsume(MonitorConsume(MonitorConsume(NewMonitor(quota), U64 - 1), 1), 0);
    assert FeedSis(NewSis(quota), amounts) == s && FeedMonitor(NewMonitor(quota), amounts) == m;
    assert m.state == EsdState.Normal && s.state != SisState.Normal;
  }

  /** The monitor saturates the total it judges: whatever the quota, the request that passes 64 bits trips it. */
  lemma OverflowTrips(m: Monitor, fuel: nat)
    requires m.quota < U64 && m.consumed < U64 <= m.consumed + fuel
    ensures MonitorConsume(m, fuel).state == EsdState.EmergencyShutdown
  {
  }

  function SisRank(s: SisState): nat {
    match s case Normal => 0 case PreShutdown => 1 case EmergencyShutdown => 2 case Locked => 3
  }

  function EsdRank(m: EsdState): nat {
    match m case Normal => 0 case Warning => 1 case Critical => 2 case EmergencyShutdown => 3
  }

  lemma RanksGrow(quota: nat, total: nat, later: nat)
    requires total <= later
    ensures SisRank(SisVerdict(quota, total)) <= SisRank(SisVerdict(quota, later))
    ensures EsdRank(ComputeState(quota, total)) <= EsdRank(ComputeState(quota, later))
  {
  }

  /** Neither meter moves back, whatever the quota. */
  lemma NeverBack(quota: nat, amounts: seq<nat>, more: seq<nat>)
    requires Sum(amounts) + Sum(more) < U64
    ensures var s := FeedSis(NewSis(quota), amounts); SisRank(s.state) <= SisRank(FeedSis(s, more).state)
    ensures var m := FeedMonitor(NewMonitor(quota), amounts); EsdRank(m.state) <= EsdRank(FeedMonitor(m, more).state)
  {
    var s, m := FeedSis(NewSis(quota), amounts), FeedMonitor(NewMonitor(quota), amounts);
    FedInStep(NewSis(quota), NewMonitor(quota), quota, 0, amounts);
    FedInStep(s, m, quota, Sum(amounts), more);
    RanksGrow(quota, Sum(amounts), Sum(amounts) + Sum(more));
  }

  // ----- The gateway -------------------------------------------------------------------------------------------------

  datatype Gateway = Gateway(sis: Sis, monitor: Monitor, running: nat)

  /** A request starts; a guest finishes, having used some of the fuel its store was given; or it is cut off
      by the timeout and its fuel is never accounted. */
  datatype Event = Start | Finish(fuel: nat) | TimedOut

  /** At most `slots` requests run at once, and a request starts only outside emergency shutdown. */
  predicate Enabled(g: Gateway, e: Event, quota: nat, slots: nat) {
    match e
    case Start => g.running < slots && g.sis.state != SisState.EmergencyShutdown
    case Finish(fuel) => g.running > 0 && fuel <= quota
    case TimedOut => g.running > 0
  }

  function Next(g: Gateway, e: Event): Gateway
    requires !e.Start? ==> g.running > 0
  {
    match e
    case Start => g.(running := g.running + 1)
    case Finish(fuel) => Gateway(SisConsume(g.sis, fuel), MonitorConsume(g.monitor, fuel), g.running - 1)
    case TimedOut => g.(running := g.running - 1)
  }

  ghost predicate Runs(g: Gateway, events: seq<Event>, quota: nat, slots: nat, g': Gateway)
    decreases |events|
  {
    if events == [] then g' == g
    else Enabled(g, events[0], quota, slots) && Runs(Next(g, events[0]), events[1..], quota, slots, g')
  }

  /** `n` quotas. */
  function Times(n: nat, quota: nat): nat { if n == 0 then 0 else quota + Times(n - 1, quota) }

  lemma {:induction false} TimesMonotone(n: nat, m: nat, quota: nat)
    requires n <= m
    ensures Times(n, quota) <= Times(m, quota)
  {
    if n < m { TimesMonotone(n, m - 1, quota); }
  }

  lemma {:induction false} TimesIsProduct(n: nat, quota: nat)
    ensures Times(n, quota) == n * quota
  {
    if n > 0 { TimesIsProduct(n - 1, quota); }
  }

  /** Until the quota is reached anything may run; beyond it only what was already running. */
  ghost predicate Contained(g: Gateway, quota: nat, slots: nat) {
    && g.running <= slots
    && Metered(g.sis, g.monitor, quota, g.sis.consumed)
    && (g.sis.consumed < quota || g.sis.consumed + Times(g.running, quota) < Times(slots + 1, quota))
  }

  lemma ContainedStep(g: Gateway, e: Event, quota: nat, slots: nat)
    requires quota > 0 && Times(slots + 1, quota) <= U64
    requires Contained(g, quota, slots) && Enabled(g, e, quota, slots)
    ensures Contained(Next(g, e), quota, slots)
  {
    if e.Finish? {
      TimesMonotone(g.running, slots, quota);
      TimesMonotone(1, slots, quota);
      ConsumeInStep(g.sis, g.monitor, quota, g.sis.consumed, e.fuel);
    }
  }

  lemma {:induction false} AlwaysContained(g: Gateway, events: seq<Event>, quota: nat, slots: nat, g': Gateway)
    requires quota > 0 && Times(slots + 1, quota) <= U64
    requires Contained(g, quota, slots) && Runs(g, events, quota, slots, g')
    ensures Contained(g', quota, slots)
    decreases |events|
  {
    if events != [] {
      ContainedStep(g, events[0], quota, slots);
      AlwaysContained(Next(g, events[0]), events[1..], quota, slots, g');
    }
  }

  function Fresh(quota: nat): Gateway { Gateway(NewSis(quota), NewMonitor(quota), 0) }

  /** With at most `slots` requests at a time, the accounted fuel stays below `slots + 1` quotas in every run:
      below two, one request at a time. */
  lemma FuelBounded(events: seq<Event>, quota: nat, slots: nat, g: Gateway)
    requires quota > 0 && 1 <= slots && Times(slots + 1, quota) <= U64
    requires Runs(Fresh(quota), events, quota, slots, g)
    ensures g.sis.consumed < Times(slots + 1, quota)
  {
    AlwaysContained(Fresh(quota), events, quota, slots, g);
    TimesMonotone(1, slots + 1, quota);
  }

  /** ... and if nine tenths of the quota come out exact the two meters agree throughout. */
  lemma GatewayAgrees(events: seq<Event>, quota: nat, slots: nat, g: Gateway)
    requires Exact(quota) && 1 <= slots && Times(slots + 1, quota) <= U64
    requires Runs(Fresh(quota), events, quota, slots, g)
    ensures Agree(g.sis.state, g.monitor.state)
  {
    AlwaysContained(Fresh(quota), events, quota, slots, g);
    ExactVerdicts(quota, g.sis.consumed);
  }

  // ----- The bound is reached ---------------------------------------------------------------------------------------------

  lemma {:induction false} RunsOn(g: Gateway, events: seq<Event>, quota: nat, slots: nat, g': Gateway, e: Event)
    requires Runs(g, events, quota, slots, g') && Enabled(g', e, quota, slots)
    ensures Runs(g, events + [e], quota, slots, Next(g', e))
    decreases |events|
  {
    if events == [] {
      assert [] + [e] == [e] && [e][1..] == [];
      assert Runs(Next(g', e), [], quota, slots, Next(g', e));
    } else {
      assert (events + [e])[1..] == events[1..] + [e];
      RunsOn(Next(g, events[0]), events[1..], quota, slots, g', e);
    }
  }

  /** A gateway some run leads to, with `running` requests under way and `total` fuel accounted. */
  ghost predicate Reached(g: Gateway, quota: nat, slots: nat, running: nat, total: nat) {
    && (exists events :: Runs(Fresh(quota), events, quota, slots, g))
    && g.running == running && Metered(g.sis, g.monitor, quota, total)
  }

  lemma ReachStart(g: Gateway, quota: nat, slots: nat, running: nat, total: nat) returns (g': Gateway)
    requires Reached(g, quota, slots, running, total) && running < slots && total < quota
    ensures Reached(g', quota, slots, running + 1, total)
  {
    var events :| Runs(Fresh(quota), events, quota, slots, g);
    RunsOn(Fresh(quota), events, quota, slots, g, Start);
    g' := Next(g, Start);
  }

  lemma ReachFinish(g: Gateway, quota: nat, slots: nat, running: nat, total: nat, fuel: nat) returns (g': Gateway)
    requires Reached(g, quota, slots, running, total) && running > 0
    requires fuel <= quota && total + fuel < U64
    ensures Reached(g', quota, slots, running - 1, total + fuel)
  {
    var events :| Runs(Fresh(quota), events, quota, slots, g);
    RunsOn(Fresh(quota), events, quota, slots, g, Finish(fuel));
    ConsumeInStep(g.sis, g.monitor, quota, total, fuel);
    g' := Next(g, Finish(fuel));
  }

  lemma ReachFresh(quota: nat, slots: nat)
    ensures Reached(Fresh(quota), quota, slots, 0, 0)
  {
    assert Runs(Fresh(quota), [], quota, slots, Fresh(quota));
  }

  lemma {:induction false} ReachStarts(g: Gateway, quota: nat, slots: nat, k: nat, total: nat) returns (g': Gateway)
    requires Reached(g, quota, slots, 0, total) && k <= slots && total < quota
    ensures Reached(g', quota, slots, k, total)
    decreases k
  {
    if k == 0 {
      g' := g;
    } else {
      g' := ReachStarts(g, quota, slots, k - 1, total);
      g' := ReachStart(g', quota, slots, k - 1, total);
    }
  }

  lemma {:induction false} ReachFinishes(g: Gateway, quota: nat, slots: nat, k: nat, total: nat) returns (g': Gateway)
    requires Reached(g, quota, slots, k, total) && total + Times(k, quota) < U64
    ensures Reached(g', quota, slots, 0, total + Times(k, quota))
    decreases k
  {
    if k == 0 {
      g' := g;
    } else {
      g' := ReachFinish(g, quota, slots, k, total, quota);
      g' := ReachFinishes(g', quota, slots, k - 1, total + quota);
    }
  }

  /** A first request leaves one unit of the quota; then as many requests as there are slots start, and each
      burns a whole quota. */
  lemma BoundIsTight(quota: nat, slots: nat) returns (g: Gateway)
    requires quota > 0 && 1 <= slots && Times(slots + 1, quota) <= U64
    ensures exists events :: Runs(Fresh(quota), events, quota, slots, g)
    ensures g.sis.consumed == Times(slots + 1, quota) - 1
  {
    ReachFresh(quota, slots);
    g := ReachStart(Fresh(quota), quota, slots, 0, 0);
    g := ReachFinish(g, quota, slots, 1, 0, quota - 1);
    g := ReachStarts(g, quota, slots, slots, quota - 1);
    g := ReachFinishes(g, quota, slots, slots, quota - 1);
  }
}
