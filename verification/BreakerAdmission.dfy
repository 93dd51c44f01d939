/**
 Exactly when the circuit breaker lets a request through (crates/traffic-control/src/circuit_breaker.rs,
 allow_request and the probe guard), told from the events of the run: always before the circuit has tripped,
 after the last failure has cooled down, and in HalfOpen as long as a probe slot is free.
 */
module BreakerAdmission {
  import opened Basics
  import opened CircuitBreaker

  // ----- Closed ----------------------------------------------------------------------------------------------

  /** The circuit has been Closed throughout exactly if no streak of failures has reached the threshold. */
  lemma {:induction false} NeverTrippedIff(r: Run, j: int)
    requires r.Valid() && 0 <= j <= |r.events|
    ensures (forall k :: 0 <= k <= j ==> r.states[k].state == Closed) <==>
              forall k :: 0 <= k <= j ==> r.TrailingFailures(k) < r.config.failureThreshold
  {
    AlwaysHealthy(r, j);
    if j > 0 {
      NeverTrippedIff(r, j - 1);
      if r.states[j - 1].state == Closed { TripsExactlyAtThreshold(r, j - 1); }
    }
  }

  /** ... and then every request is let through. */
  lemma HealthyAdmits(r: Run, j: int)
    requires r.Valid() && 0 <= j < |r.events| && r.events[j].Asked?
    requires forall k :: 0 <= k <= j ==> r.TrailingFailures(k) < r.config.failureThreshold
    ensures r.admitted[j]
  {
    NeverTrippedIff(r, j);
    assert r.StepAt(j);
  }

  // ----- Open ------------------------------------------------------------------------------------------------

  /** When the last failure among the first `j` events was reported. */
  function LastFailure(r: Run, j: int): Option<real>
    requires r.Sized() && 0 <= j <= |r.events|
  {
    if j == 0 then None
    else if r.events[j - 1].Bad() then Some(r.events[j - 1].time)
    else LastFailure(r, j - 1)
  }

  lemma {:induction false} LastFailureIsStamped(r: Run, j: int)
    requires r.Valid() && 0 <= j <= |r.events|
    ensures r.states[j].lastFailure == LastFailure(r, j)
    ensures r.states[j].state == Open ==> LastFailure(r, j).Some?
  {
    if j > 0 {
      LastFailureIsStamped(r, j - 1);
      assert r.StepAt(j - 1);
    }
  }

  // ----- HalfOpen --------------------------------------------------------------------------------------------

  /** The slots in use in an episode begun at event `i`: what it inherits and what has been let through since,
      less one for every success, in 64 bits. */
  function Slots(r: Run, i: int, j: int): nat
    requires r.Sized() && 0 <= i < j <= |r.events|
  {
    (r.states[i].probes + r.Admissions(i + 1, j) - r.Successes(i + 1, j)) % U64
  }

  lemma IncMod(n: int, p: nat)
    requires p == n % U64
    ensures Inc(p) == (n + 1) % U64 && Dec(p) == (n - 1) % U64
  {
    var q := n / U64;
    if p + 1 < U64 { Remainder(n + 1, q, p + 1); } else { Remainder(n + 1, q + 1, 0); }
    if p > 0 { Remainder(n - 1, q, p - 1); } else { Remainder(n - 1, q - 1, U64 - 1); }
  }

  lemma Remainder(n: int, q: int, p: nat)
    requires n == q * U64 + p && p < U64
    ensures n % U64 == p
  {
  }

  lemma {:induction false} SlotsAreCounted(r: Run, i: int, j: int)
    requires r.Valid() && 0 <= i < j <= |r.events|
    requires r.Episode(i, j) && r.states[j].state == HalfOpen
    ensures r.states[j].probes == Slots(r, i, j)
  {
    assert r.StepAt(j - 1);
    AlwaysHealthy(r, j - 1);
    if j > i + 1 {
      assert r.states[j - 1].state == HalfOpen;
      SlotsAreCounted(r, i, j - 1);
      IncMod(r.states[i].probes + r.Admissions(i + 1, j - 1) - r.Successes(i + 1, j - 1), r.states[j - 1].probes);
    } else {
      assert r.Admissions(j, j) == 0 && r.Successes(j, j) == 0;
    }
  }

  lemma {:induction false} StreakIsCounted(r: Run, j: int)
    requires r.Valid() && 0 <= j <= |r.events|
    ensures r.states[j].failures == r.TrailingFailures(j) % U64
  {
    if j > 0 {
      StreakIsCounted(r, j - 1);
      assert r.StepAt(j - 1);
      IncMod(r.TrailingFailures(j - 1), r.states[j - 1].failures);
    }
  }

  lemma GivesBack(config: Config, b: Breaker, e: Event)
    requires b.state == HalfOpen && b.Fits() && e.Bad()
    ensures var b' := Next(config, b, e).0;
            var dropped := if e.Dropped? && b.probes > 0 then 1 else 0;
            var failed := if b'.failures < config.failureThreshold then 1 else 0;
            b'.state == Open && b'.failures == Inc(b.failures) && b'.probes == (b.probes - dropped - failed) % U64
  {
  }

  /** The success counter of the metrics counts the successes of the run. */
  lemma {:induction false} SuccessesAreCounted(r: Run, j: int)
    requires r.Valid() && 0 <= j <= |r.events|
    ensures r.states[j].successes == r.Successes(0, j) % U64
  {
    if j > 0 {
      SuccessesAreCounted(r, j - 1);
      assert r.StepAt(j - 1);
      IncMod(r.Successes(0, j - 1), r.states[j - 1].successes);
    }
  }

  /** A failure ends the episode. A dropped guard gives its slot back, if any is in use; the failure itself gives
      one back only if it does not complete a streak that trips the circuit anyway. */
  lemma EndOfEpisode(r: Run, i: int, j: int)
    requires r.Valid() && 0 <= i < j < |r.events| && r.Episode(i, j + 1) && r.events[j].Bad()
    ensures r.states[j + 1].state == Open
    ensures var n := Slots(r, i, j);
            var dropped := if r.events[j].Dropped? && n > 0 then 1 else 0;
            var failed := if r.TrailingFailures(j + 1) % U64 < r.config.failureThreshold then 1 else 0;
            r.states[j + 1].probes == (n - dropped - failed) % U64
  {
    assert r.states[j].state == HalfOpen && r.StepAt(j);
    assert r.Episode(i, j);
    SlotsAreCounted(r, i, j);
    StreakIsCounted(r, j + 1);
    AlwaysHealthy(r, j);
    GivesBack(r.config, r.states[j], r.events[j]);
  }

  function Drops(r: Run, i: int, j: int): nat
    requires r.Sized() && 0 <= i <= j <= |r.events|
    decreases j
  {
    if i == j then 0 else Drops(r, i, j - 1) + if r.events[j - 1].Dropped? then 1 else 0
  }

  /** What the next episode inherits: in Open only guards dropped late give slots back, down to zero. */
  lemma {:induction false} OpenGivesBack(r: Run, i: int, j: int)
    requires r.Valid() && 0 <= i <= j <= |r.events|
    requires forall k :: i <= k <= j ==> r.states[k].state == Open
    ensures r.states[j].probes == if Drops(r, i, j) >= r.states[i].probes then 0 else r.states[i].probes - Drops(r, i, j)
    decreases j
  {
    if i < j {
      OpenGivesBack(r, i, j - 1);
      assert r.StepAt(j - 1);
      AlwaysHealthy(r, j - 1);
    }
  }

  /** A closed circuit holds no slots. */
  lemma {:induction false} ClosedHoldsNone(r: Run, j: int)
    requires r.Valid() && 0 <= j <= |r.events| && r.states[j].state == Closed
    ensures r.states[j].probes == 0
  {
    if j > 0 {
      assert r.StepAt(j - 1);
      if r.states[j - 1].state == Closed { ClosedHoldsNone(r, j - 1); }
    }
  }

  // ----- Exactly when ------------------------------------------------------------------------------------------

  /** Whether a request is let through: in Closed always, in Open once the last failure is `openDuration` old, in
      HalfOpen exactly while fewer slots than the limit are in use. */
  lemma AdmittedIff(r: Run, j: int)
    requires r.Valid() && 0 <= j < |r.events| && r.events[j].Asked?
    ensures r.states[j].state == Closed ==> r.admitted[j]
    ensures r.states[j].state == Open ==>
              && LastFailure(r, j).Some?
              && (r.admitted[j] <==> r.events[j].time >= LastFailure(r, j).value + r.config.openDuration)
    ensures r.states[j].state == HalfOpen ==>
              exists i :: 0 <= i < j && r.Episode(i, j) && (r.admitted[j] <==> Slots(r, i, j) < r.config.halfOpenMaxAttempts)
  {
    assert r.StepAt(j);
    LastFailureIsStamped(r, j);
    if r.states[j].state == HalfOpen {
      var i := EpisodeStart(r, j);
      SlotsAreCounted(r, i, j);
    }
  }
}
