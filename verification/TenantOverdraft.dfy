/**
 Tenants that exceed their bound (crates/traffic-control/src/rate_limiter.rs, SimpleTokenBucket and
 evict_stale_tenants): whenever sweeps are impatient and the global bucket is not tight, some run lets a tenant
 overdraw. Together with `TenantWindow` this says exactly when the window bound of a tenant holds.
 */
module TenantOverdraft {
  import opened Ledger
  import opened ApiRateLimiter
  import opened TenantEviction
  import opened TenantWindow

  // ----- Runs from traces -----------------------------------------------------------------------------------------

  function States(c: Limits, s: Limiter, trace: seq<Event>): (states: seq<Limiter>)
    ensures |states| == |trace| + 1 && states[0] == s
    decreases |trace|
  {
    if trace == [] then [s] else [s] + States(c, Next(c, s, trace[0]).0, trace[1..])
  }

  lemma {:induction false} StatesAt(c: Limits, s: Limiter, trace: seq<Event>, i: nat)
    requires i < |trace|
    ensures |Answers(c, s, trace)| == |trace|
    ensures (States(c, s, trace)[i + 1], Answers(c, s, trace)[i]) == Next(c, States(c, s, trace)[i], trace[i])
    decreases |trace|
  {
    AnswersConcat(c, s, trace, []);
    if i > 0 { StatesAt(c, Next(c, s, trace[0]).0, trace[1..], i - 1); }
  }

  lemma {:induction false} ClockedAt(now: real, trace: seq<Event>, i: nat)
    requires Clocked(now, trace) && i < |trace|
    ensures trace[i].time >= if i == 0 then now else trace[i - 1].time
    decreases |trace|
  {
    if i > 0 { ClockedAt(trace[0].time, trace[1..], i - 1); }
  }

  /** The run of a trace, as seen by one tenant. */
  function RunOf(c: Limits, tenant: string, start: real, trace: seq<Event>): Run {
    Run(c, Own(tenant), trace, States(c, New(c, start), trace), Answers(c, New(c, start), trace),
        seq(|trace|, i requires 0 <= i < |trace| => Earned(c.tenantRate, trace[i].time)))
  }

  lemma RunOfValid(c: Limits, tenant: string, start: real, trace: seq<Event>)
    requires Rates(c) && Clocked(start, trace)
    ensures RunOf(c, tenant, start, trace).Valid(start)
  {
    var r := RunOf(c, tenant, start, trace);
    AnswersConcat(c, New(c, start), trace, []);
    forall i | 0 <= i < |trace| ensures r.StepAt(i) { StatesAt(c, New(c, start), trace, i); }
    forall i | 0 <= i < |trace| ensures r.TimeAt(i) >= if i == 0 then start else r.TimeAt(i - 1) {
      ClockedAt(start, trace, i);
    }
  }

  lemma {:induction false} GrantsAll(r: Run, i: nat, j: nat)
    requires r.Sized() && i <= j <= |r.trace| && forall k :: i <= k < j ==> r.PaysAt(k)
    ensures r.Grants(i, j) == j - i
    decreases j
  {
    if i < j { GrantsAll(r, i, j - 1); }
  }

  // ----- Overdrawing with one sweep -----------------------------------------------------------------------------

  /** Requests of one tenant only. */
  predicate Only(tenant: string, trace: seq<Event>) {
    forall i :: 0 <= i < |trace| ==> trace[i].Request? && trace[i].tenant == tenant
  }

  ghost predicate AllGranted(c: Limits, s: Limiter, trace: seq<Event>) {
    |Answers(c, s, trace)| == |trace| && forall i :: 0 <= i < |trace| ==> Answers(c, s, trace)[i] == Granted
  }

  function Sweep(maxAge: real, later: real, z: seq<Event>): seq<Event> { [Evict(maxAge, later)] + z }

  /** The tenant asks, is forgotten, and asks again; everything is granted, and it is more than its bound. */
  ghost predicate Overdraws(c: Limits, start: real, maxAge: real, x: seq<Event>, later: real, z: seq<Event>) {
    && x != [] && z != [] && Only("tenant", x) && Only("tenant", z) && Clocked(start, x + Sweep(maxAge, later, z))
    && AllGranted(c, New(c, start), x)
    && AllGranted(c, Next(c, After(c, New(c, start), x), Evict(maxAge, later)).0, z)
    && (|x| + |z|) as real > c.tenantCapacity as real + Earned(c.tenantRate, z[|z| - 1].time - x[0].time)
  }

  lemma OverdraftAnswers(c: Limits, start: real, maxAge: real, x: seq<Event>, later: real, z: seq<Event>)
    requires Overdraws(c, start, maxAge, x, later, z)
    ensures var trace := x + Sweep(maxAge, later, z);
            && |Answers(c, New(c, start), trace)| == |trace|
            && forall i :: 0 <= i < |trace| && i != |x| ==> Answers(c, New(c, start), trace)[i] == Granted
  {
    var y, s := Sweep(maxAge, later, z), After(c, New(c, start), x);
    AnswersConcat(c, New(c, start), x, y);
    assert y[1..] == z;
    assert Answers(c, s, y) == [Answer.Swept] + Answers(c, Next(c, s, Evict(maxAge, later)).0, z);
  }

  /** Such a run breaks the bound. */
  lemma OverdraftBreaks(c: Limits, start: real, maxAge: real, x: seq<Event>, later: real, z: seq<Event>)
    requires Rates(c) && Overdraws(c, start, maxAge, x, later, z)
    ensures !Bounded(c, start, maxAge)
  {
    var trace := x + Sweep(maxAge, later, z);
    var r, n := RunOf(c, "tenant", start, trace), |trace|;
    RunOfValid(c, "tenant", start, trace);
    OverdraftGrants(c, start, maxAge, x, later, z, r);
    assert trace[n - 1] == z[|z| - 1] && trace[0] == x[0];
    assert Window(c, start, maxAge, r, 0, n) && !WithinBound(r, 0, n);
  }

  lemma OverdraftPays(c: Limits, start: real, maxAge: real, x: seq<Event>, later: real, z: seq<Event>, r: Run, k: nat)
    requires Overdraws(c, start, maxAge, x, later, z) && r == RunOf(c, "tenant", start, x + Sweep(maxAge, later, z)) && r.Sized()
    requires k < |r.trace| && k != |x|
    ensures r.PaysAt(k)
  {
    OverdraftAnswers(c, start, maxAge, x, later, z);
    assert r.trace[k] == if k < |x| then x[k] else z[k - |x| - 1];
  }

  /** All but one of the events are paid. */
  lemma GrantsAround(r: Run, m: nat)
    requires r.Sized() && m < |r.trace| && forall k :: 0 <= k < |r.trace| && k != m ==> r.PaysAt(k)
    ensures r.Grants(0, |r.trace|) >= |r.trace| - 1
  {
    var n := |r.trace|;
    GrantsSplit(r, 0, m, n);
    GrantsSplit(r, m, m + 1, n);
    GrantsAll(r, 0, m);
    GrantsAll(r, m + 1, n);
  }

  lemma OverdraftGrants(c: Limits, start: real, maxAge: real, x: seq<Event>, later: real, z: seq<Event>, r: Run)
    requires Overdraws(c, start, maxAge, x, later, z) && r == RunOf(c, "tenant", start, x + Sweep(maxAge, later, z)) && r.Sized()
    ensures r.Grants(0, |r.trace|) >= |x| + |z|
  {
    forall k | 0 <= k < |r.trace| && k != |x| ensures r.PaysAt(k) {
      OverdraftPays(c, start, maxAge, x, later, z, r, k);
    }
    GrantsAround(r, |x|);
  }

  /** A tenant that is never forgotten keeps to its bound. */
  lemma UnforgottenKeeps(c: Limits, start: real, trace: seq<Event>)
    requires Rates(c) && trace != [] && Only("tenant", trace) && Clocked(start, trace)
    requires AllGranted(c, New(c, start), trace)
    ensures |trace| as real <= c.tenantCapacity as real + Earned(c.tenantRate, trace[|trace| - 1].time - trace[0].time)
  {
    var r := RunOf(c, "tenant", start, trace);
    RunOfValid(c, "tenant", start, trace);
    forall k | 0 <= k < |trace| ensures r.PaysAt(k) {}
    GrantsAll(r, 0, |trace|);
    LimiterWindow(r, start, 0, |trace|);
  }

  lemma {:induction false} ClockedWithout(now: real, x: seq<Event>, e: Event, z: seq<Event>)
    requires Clocked(now, x + ([e] + z))
    ensures Clocked(now, x + z)
    decreases |x|
  {
    if x == [] {
      assert x + ([e] + z) == [e] + z && x + z == z && ([e] + z)[1..] == z;
    } else {
      assert (x + ([e] + z))[1..] == x[1..] + ([e] + z) && (x + z)[1..] == x[1..] + z;
      ClockedWithout(x[0].time, x[1..], e, z);
    }
  }

  /** ... and it makes a difference in decisions: the limiter that never evicts refuses one of the requests. */
  lemma OverdraftAdmitsMore(c: Limits, start: real, maxAge: real, x: seq<Event>, later: real, z: seq<Event>) returns (i: nat)
    requires Rates(c) && Overdraws(c, start, maxAge, x, later, z)
    ensures var trace := x + Sweep(maxAge, later, z);
            && i < |trace| == |Answers(c, New(c, start), trace)| == |Unevicted(c, New(c, start), trace)|
            && trace[i].Request? && Answers(c, New(c, start), trace)[i] == Granted
            && Unevicted(c, New(c, start), trace)[i] != Granted
  {
    var s, y := After(c, New(c, start), x), Sweep(maxAge, later, z);
    OverdraftAnswers(c, start, maxAge, x, later, z);
    UnevictedConcat(c, New(c, start), x, y);
    assert y[1..] == z && z + [] == z;
    UnevictedConcat(c, s, z, []);
    AnswersConcat(c, s, z, []);
    var k := Refused(c, start, x, Evict(maxAge, later), z);
    i := |x| + 1 + k;
  }

  lemma Refused(c: Limits, start: real, x: seq<Event>, e: Event, z: seq<Event>) returns (k: nat)
    requires Rates(c) && x != [] && z != [] && Only("tenant", x) && Only("tenant", z) && Clocked(start, x + ([e] + z))
    requires AllGranted(c, New(c, start), x)
    requires (|x| + |z|) as real > c.tenantCapacity as real + Earned(c.tenantRate, z[|z| - 1].time - x[0].time)
    ensures var s := After(c, New(c, start), x); |Answers(c, s, z)| == |z| && k < |z| && Answers(c, s, z)[k] != Granted
  {
    var s := After(c, New(c, start), x);
    AnswersConcat(c, New(c, start), x, z);
    AnswersConcat(c, s, z, []);
    ClockedWithout(start, x, e, z);
    if AllGranted(c, s, z) {
      assert AllGranted(c, New(c, start), x + z);
      assert (x + z)[|x + z| - 1] == z[|z| - 1] && (x + z)[0] == x[0];
      UnforgottenKeeps(c, start, x + z);
    }
    k :| 0 <= k < |z| && Answers(c, s, z)[k] != Granted;
  }

  // ----- Asking all at once ----------------------------------------------------------------------------------------

  function GlobalLevel(c: Limits, s: Limiter, now: real): real { Level(c.globalCapacity, c.globalRate, s.global, now) }

  lemma RequestGranted(c: Limits, s: Limiter, tenant: string, now: real)
    requires Alone(c, s, tenant, now) && Balance(c, s, tenant, now) >= 1.0 && GlobalLevel(c, s, now) >= 1.0
    ensures var (s', a) := Next(c, s, Request(tenant, now));
            a == Granted && GlobalLevel(c, s', now) == GlobalLevel(c, s, now) - 1.0
  {
    RoomFor(c, s, tenant, {tenant});
    AcquireByBalance(c, s, tenant, now);
    LevelSound(c.globalCapacity, c.globalRate, s.global, now);
    LevelNow(c.globalCapacity, c.globalRate, Next(c, s, Request(tenant, now)).0.global, now);
  }

  /** A burst that both layers can afford. */
  lemma {:induction false} BurstGranted(c: Limits, s: Limiter, tenant: string, n: nat, now: real)
    requires Alone(c, s, tenant, now) && Balance(c, s, tenant, now) >= n as real && GlobalLevel(c, s, now) >= n as real
    ensures AllGranted(c, s, Burst(tenant, n, now))
    ensures GlobalLevel(c, After(c, s, Burst(tenant, n, now)), now) == GlobalLevel(c, s, now) - n as real
    decreases n
  {
    if n > 0 {
      AloneRequest(c, s, tenant, now);
      RequestGranted(c, s, tenant, now);
      assert Burst(tenant, n, now)[1..] == Burst(tenant, n - 1, now);
      BurstGranted(c, Next(c, s, Request(tenant, now)).0, tenant, n - 1, now);
    }
  }

  /** The global bucket can serve a full tenant bucket and, `length` later, `n` requests more, fewer than the
      tenant has earned by then. */
  predicate Affords(c: Limits, maxAge: real, length: real, n: nat) {
    && maxAge <= length && 1 <= n <= c.tenantCapacity <= c.globalCapacity && Earned(c.tenantRate, length) < n as real
    && n <= c.globalCapacity
    && (c.globalCapacity - c.tenantCapacity) as real + Earned(c.globalRate, length) >= n as real
  }

  lemma LevelAfterBurst(c: Limits, start: real, maxAge: real, length: real, n: nat)
    requires Usable(c) && 0.0 <= maxAge && Affords(c, maxAge, length, n)
    ensures var s := After(c, New(c, start), Burst("tenant", c.tenantCapacity, start));
            AllGranted(c, New(c, start), Burst("tenant", c.tenantCapacity, start))
            && GlobalLevel(c, s, start + length) >= n as real
  {
    var s0, x := New(c, start), Burst("tenant", c.tenantCapacity, start);
    LevelNow(c.globalCapacity, c.globalRate, s0.global, start);
    BurstGranted(c, s0, "tenant", c.tenantCapacity, start);
    LevelLater(c.globalCapacity, c.globalRate, After(c, s0, x).global, start, start + length);
    assert start + length - start == length;
  }

  lemma LaterSweep(c: Limits, s: Limiter, start: real, maxAge: real, length: real)
    requires Drained(c, s, start) && 0.0 <= maxAge <= length
    ensures var s' := Next(c, s, Evict(maxAge, start + length)).0;
            s'.tenants == map[] && s'.global == s.global && Alone(c, s', "tenant", start + length)
  {
    NextSound(c, s, Evict(maxAge, start + length), start);
  }

  lemma BurstsOverdraw(c: Limits, start: real, maxAge: real, length: real, n: nat)
    requires Usable(c) && 0.0 <= maxAge && Affords(c, maxAge, length, n)
    ensures Overdraws(c, start, maxAge, Burst("tenant", c.tenantCapacity, start), start + length,
                      Burst("tenant", n, start + length))
  {
    var later := start + length;
    var x, z := Burst("tenant", c.tenantCapacity, start), Burst("tenant", n, later);
    var s := After(c, New(c, start), x);
    FirstBurst(c, start);
    LevelAfterBurst(c, start, maxAge, length, n);
    LaterSweep(c, s, start, maxAge, length);
    BurstGranted(c, Next(c, s, Evict(maxAge, later)).0, "tenant", n, later);
    BurstsClocked(c, start, maxAge, length, n);
    assert z[n - 1].time - x[0].time == length;
  }

  lemma BurstsClocked(c: Limits, start: real, maxAge: real, length: real, n: nat)
    requires length >= 0.0
    ensures Clocked(start, Burst("tenant", c.tenantCapacity, start) + Sweep(maxAge, start + length, Burst("tenant", n, start + length)))
  {
    var y, z := Sweep(maxAge, start + length, Burst("tenant", n, start + length)), Burst("tenant", n, start + length);
    assert y[1..] == z && z + [] == z;
    ClockedConcat(z, start + length, []);
    ClockedConcat(Burst("tenant", c.tenantCapacity, start), start, y);
  }

  /** If the global bucket is not tight and refills no faster than a tenant, some length and number will do. */
  lemma SomeAffordable(c: Limits, maxAge: real) returns (length: real, n: nat)
    requires Usable(c) && 0.0 <= maxAge && !IsPatient(c, maxAge) && !Tight(c, maxAge) && c.globalRate <= c.tenantRate
    ensures Affords(c, maxAge, length, n)
  {
    EarnedSome(c.tenantRate, maxAge);
    n := Excess(c, maxAge);
    if c.globalRate == 0.0 {
      length := maxAge;
      EarnedSome(c.globalRate, maxAge);
    } else {
      length := LastMoment(c.tenantRate, c.globalRate, (c.globalCapacity - c.tenantCapacity) as real, n as real, maxAge);
      PositiveGap(c.tenantRate, c.globalRate, (c.globalCapacity - c.tenantCapacity) as real, n as real);
    }
  }

  lemma PositiveGap(tr: real, gr: real, gap: real, n: real)
    requires 0.0 < gr <= tr && n >= 0.0 && tr * gap > n * (tr - gr)
    ensures gap > 0.0
  {
    MulMonotone(n, 0.0, tr - gr);
    assert tr * gap > 0.0;
    if gap <= 0.0 { MulMonotone(tr, gap, 0.0); }
  }

  /** The moment when the global bucket has caught up, before the tenant has earned `n` tokens. */
  lemma LastMoment(tr: real, gr: real, gap: real, n: real, maxAge: real) returns (length: real)
    requires 0.0 < gr <= tr && Earned(tr, maxAge) < n && tr * gap > n * (tr - gr)
    ensures length >= maxAge && Earned(tr, length) < n && gap + Earned(gr, length) >= n
  {
    var l := (n - gap) / gr;
    assert gr * l == n - gap;
    if l <= maxAge {
      length := maxAge;
      MulMonotone(gr, l, maxAge);
    } else {
      length := l;
      assert tr * (n - gap) < n * gr by { MulSplit(tr, n, -gap); MulSplit(n, tr, -gr); }
      assert gr * (tr * l) == tr * (gr * l);
      if tr * l >= n { MulMonotone(gr, n, tr * l); }
    }
  }

  // ----- Asking at a steady pace -----------------------------------------------------------------------------------

  /** `n` requests, `gap` seconds apart. */
  function Paced(n: nat, gap: real, now: real): (trace: seq<Event>)
    ensures |trace| == n && Only("tenant", trace) && (n > 0 ==> trace[0].time == now)
  {
    if n == 0 then [] else [Request("tenant", now)] + Paced(n - 1, gap, now + gap)
  }

  /** The last of `k + 1` paced requests comes `Times(gap, k)` after the first. */
  lemma {:induction false} PacedEnds(k: nat, gap: real, now: real)
    ensures Paced(k + 1, gap, now)[k].time == now + Times(gap, k)
    decreases k
  {
    if k > 0 { PacedEnds(k - 1, gap, now + gap); }
  }

  lemma ClockedCons(now: real, e: Event, trace: seq<Event>)
    requires now <= e.time && Clocked(e.time, trace)
    ensures Clocked(now, [e] + trace)
  {
    assert ([e] + trace)[1..] == trace;
  }

  lemma {:induction false} PacedClocked(k: nat, gap: real, now: real, rest: seq<Event>)
    requires gap >= 0.0 && Clocked(now + Times(gap, k), rest)
    ensures Clocked(now, Paced(k + 1, gap, now) + rest)
    decreases k
  {
    var e, tail := Request("tenant", now), Paced(k, gap, now + gap) + rest;
    assert Paced(k + 1, gap, now) + rest == [e] + tail;
    if k == 0 {
      assert tail == rest;
    } else {
      assert now + gap + Times(gap, k - 1) == now + Times(gap, k);
      PacedClocked(k - 1, gap, now + gap, rest);
      assert Clocked(now, tail);
    }
    ClockedCons(now, e, tail);
  }

  /** A pace the global bucket can keep up with while the tenant's balance falls by `fall` from one request to
      the next. */
  predicate Pace(c: Limits, gap: real, fall: real) {
    && gap >= 0.0 && 0.0 <= fall <= 1.0 && c.globalCapacity >= 1
    && Earned(c.globalRate, gap) >= 1.0 && Earned(c.tenantRate, gap) == 1.0 - fall
  }

  lemma AloneLater(c: Limits, s: Limiter, now: real, later: real)
    requires Alone(c, s, "tenant", now) && now <= later
    ensures Alone(c, s, "tenant", later)
  {
  }

  /** One request at this pace: granted, and what both layers hold a gap later. */
  lemma PacedRequest(c: Limits, s: Limiter, gap: real, fall: real, now: real)
    requires Alone(c, s, "tenant", now) && Pace(c, gap, fall)
    requires Balance(c, s, "tenant", now) >= 1.0 && GlobalLevel(c, s, now) >= 1.0
    ensures var (s', a) := Next(c, s, Request("tenant", now));
            && a == Granted && Alone(c, s', "tenant", now + gap) && GlobalLevel(c, s', now + gap) >= 1.0
            && Balance(c, s', "tenant", now + gap) == Balance(c, s, "tenant", now) - fall
  {
    AloneRequest(c, s, "tenant", now);
    RequestGranted(c, s, "tenant", now);
    HoldingsSound(c, Own("tenant"), s, now);
    var s' := Next(c, s, Request("tenant", now)).0;
    AloneLater(c, s', now, now + gap);
    assert now + gap - now == gap;
    BalanceLater(c, s', "tenant", now, now + gap);
    LevelLater(c.globalCapacity, c.globalRate, s'.global, now, now + gap);
  }

  lemma GrantedCons(c: Limits, s: Limiter, e: Event, tail: seq<Event>)
    requires Next(c, s, e).1 == Granted && AllGranted(c, Next(c, s, e).0, tail)
    ensures AllGranted(c, s, [e] + tail) && After(c, s, [e] + tail) == After(c, Next(c, s, e).0, tail)
  {
    assert ([e] + tail)[1..] == tail;
  }

  /** Only the tenant is on record, last seen just now. */
  ghost predicate JustSeen(c: Limits, s: Limiter, now: real) {
    Alone(c, s, "tenant", now) && "tenant" in s.tenants && s.tenants["tenant"].lastAccessed == now
  }

  lemma {:induction false} PacedGranted(c: Limits, s: Limiter, k: nat, gap: real, fall: real, now: real)
    requires Alone(c, s, "tenant", now) && Pace(c, gap, fall) && GlobalLevel(c, s, now) >= 1.0
    requires Balance(c, s, "tenant", now) >= 1.0 + Times(fall, k)
    ensures AllGranted(c, s, Paced(k + 1, gap, now))
    ensures JustSeen(c, After(c, s, Paced(k + 1, gap, now)), now + Times(gap, k))
    decreases k
  {
    TimesSome(fall, k);
    var e := Request("tenant", now);
    var s' := Next(c, s, e).0;
    PacedRequest(c, s, gap, fall, now);
    AloneRequest(c, s, "tenant", now);
    if k > 0 {
      assert now + gap + Times(gap, k - 1) == now + Times(gap, k);
      PacedGranted(c, s', k - 1, gap, fall, now + gap);
    } else {
      assert Paced(0, gap, now + gap) == [];
    }
    GrantedCons(c, s, e, Paced(k, gap, now + gap));
  }

  lemma {:induction false} TimesSome(price: real, n: nat)
    requires price >= 0.0
    ensures Times(price, n) >= 0.0
  {
    if n > 0 { TimesSome(price, n - 1); }
  }

  lemma {:induction false} EarnedTimes(rate: real, gap: real, k: nat)
    ensures Earned(rate, Times(gap, k)) == Times(Earned(rate, gap), k)
  {
    if k > 0 {
      EarnedTimes(rate, gap, k - 1);
      EarnedSplit(rate, Times(gap, k - 1), gap, Times(gap, k));
    } else {
      assert Earned(rate, 0.0) == 0.0;
    }
  }

  lemma {:induction false} TimesComplement(fall: real, k: nat)
    ensures Times(1.0 - fall, k) == k as real - Times(fall, k)
  {
    if k > 0 { TimesComplement(fall, k - 1); }
  }

  // ----- Choosing the pace -------------------------------------------------------------------------------------------

  /** If the global bucket refills faster than a tenant there is a pace at which a tenant spends its bucket to
      the last token. */
  lemma SomePace(c: Limits) returns (k: nat, gap: real, fall: real)
    requires Usable(c) && c.globalCapacity >= 1 && c.globalRate > c.tenantRate
    ensures Pace(c, gap, fall) && Times(fall, k) == (c.tenantCapacity - 1) as real
  {
    var n := (c.tenantCapacity - 1) as real;
    if c.tenantRate == 0.0 {
      k, fall, gap := c.tenantCapacity - 1, 1.0, 1.0 / c.globalRate;
      assert c.globalRate * gap == 1.0;
      TimesIsProduct(1.0, k);
    } else {
      k := Enough(n, c.tenantRate, c.globalRate);
      fall := n / k as real;
      gap := (1.0 - fall) / c.tenantRate;
      PaceHolds(n, k as real, fall, gap, c.tenantRate, c.globalRate);
      TimesIsProduct(fall, k);
    }
  }

  lemma Enough(n: real, tr: real, gr: real) returns (k: nat)
    requires n >= 0.0 && 0.0 < tr < gr
    ensures k >= 1 && n * gr <= k as real * (gr - tr)
  {
    MulMonotone(gr, 0.0, n);
    k := Ceiling(n * gr, gr - tr);
  }

  lemma Ceiling(x: real, d: real) returns (k: nat)
    requires x >= 0.0 && d > 0.0
    ensures k >= 1 && x <= k as real * d
  {
    var q := x / d;
    assert q * d == x;
    if q < 0.0 { Strictly(d, q, 0.0); }
    k := q.Floor + 1;
    MulMonotone(d, q, k as real);
  }

  lemma PaceHolds(n: real, k: real, fall: real, gap: real, tr: real, gr: real)
    requires n >= 0.0 && k > 0.0 && 0.0 < tr < gr && n * gr <= k * (gr - tr)
    requires fall == n / k && gap == (1.0 - fall) / tr
    ensures fall * k == n && 0.0 <= fall <= 1.0 && gap >= 0.0
    ensures Earned(tr, gap) == 1.0 - fall && Earned(gr, gap) >= 1.0
  {
    assert fall * k == n && tr * gap == 1.0 - fall;
    FallSmall(n, k, fall, tr, gr);
    GapLong(fall, gap, tr, gr);
  }

  lemma FallSmall(n: real, k: real, fall: real, tr: real, gr: real)
    requires n >= 0.0 && k > 0.0 && 0.0 < tr < gr && n * gr <= k * (gr - tr) && fall * k == n
    ensures fall >= 0.0 && fall * gr <= gr - tr
  {
    if fall < 0.0 { Strictly(k, fall, 0.0); }
    assert k * (fall * gr) == n * gr;
    if fall * gr > gr - tr { Strictly(k, gr - tr, fall * gr); }
  }

  lemma GapLong(fall: real, gap: real, tr: real, gr: real)
    requires 0.0 < tr < gr && 0.0 <= fall && fall * gr <= gr - tr && tr * gap == 1.0 - fall
    ensures fall <= 1.0 && gap >= 0.0 && Earned(gr, gap) >= 1.0
  {
    if fall > 1.0 { Strictly(gr, 1.0, fall); }
    if gap < 0.0 { Strictly(tr, gap, 0.0); }
    assert tr * (gr * gap) == gr * (1.0 - fall) >= tr;
    if gr * gap < 1.0 { Strictly(tr, gr * gap, 1.0); }
  }

  // ----- Two rounds at a steady pace -----------------------------------------------------------------------------------

  /** Long enough for the sweep and for one more token in the global bucket, too short for a tenant bucket. */
  lemma Pause(c: Limits, maxAge: real) returns (pause: real)
    requires Usable(c) && 0.0 <= maxAge && !IsPatient(c, maxAge) && c.globalRate > c.tenantRate
    ensures pause >= maxAge && Earned(c.globalRate, pause) >= 1.0 && Earned(c.tenantRate, pause) < c.tenantCapacity as real
  {
    var one := 1.0 / c.globalRate;
    assert c.globalRate * one == 1.0;
    if maxAge >= one {
      pause := maxAge;
      MulMonotone(c.globalRate, one, maxAge);
    } else {
      pause := one;
      LessThanOne(c.tenantRate, c.globalRate, one);
    }
  }

  lemma LessThanOne(tr: real, gr: real, t: real)
    requires 0.0 <= tr < gr && gr * t == 1.0
    ensures Earned(tr, t) < 1.0
  {
    if t <= 0.0 { MulMonotone(gr, t, 0.0); }
    Strictly(t, tr, gr);
  }

  /** What both rounds and the pause between them earn a tenant. */
  lemma RoundsEarn(c: Limits, k: nat, gap: real, fall: real, pause: real)
    requires Pace(c, gap, fall) && Times(fall, k) == (c.tenantCapacity - 1) as real
    ensures Earned(c.tenantRate, Times(gap, k) + pause + Times(gap, k))
         == 2.0 * (k as real - (c.tenantCapacity - 1) as real) + Earned(c.tenantRate, pause)
  {
    var span := Times(gap, k);
    EarnedTimes(c.tenantRate, gap, k);
    TimesComplement(fall, k);
    EarnedSplit(c.tenantRate, span, pause, span + pause);
    EarnedSplit(c.tenantRate, span + pause, span, span + pause + span);
  }

  /** A sweep after the pause forgets the tenant and leaves the global bucket with a token. */
  lemma SweepAfterPause(c: Limits, s: Limiter, now: real, maxAge: real, pause: real)
    requires JustSeen(c, s, now) && 0.0 <= maxAge <= pause && Earned(c.globalRate, pause) >= 1.0 && c.globalCapacity >= 1
    ensures var s' := Next(c, s, Evict(maxAge, now + pause)).0;
            && Alone(c, s', "tenant", now + pause) && GlobalLevel(c, s', now + pause) >= 1.0
            && Balance(c, s', "tenant", now + pause) == c.tenantCapacity as real
  {
    NextSound(c, s, Evict(maxAge, now + pause), now);
    LevelSound(c.globalCapacity, c.globalRate, s.global, now);
    LevelLater(c.globalCapacity, c.globalRate, s.global, now, now + pause);
    assert now + pause - now == pause;
  }

  lemma RoundsClocked(k: nat, gap: real, start: real, maxAge: real, later: real)
    requires gap >= 0.0 && start + Times(gap, k) <= later
    ensures Clocked(start, Paced(k + 1, gap, start) + Sweep(maxAge, later, Paced(k + 1, gap, later)))
  {
    var z := Paced(k + 1, gap, later);
    PacedClocked(k, gap, later, []);
    assert z + [] == z;
    ClockedCons(start + Times(gap, k), Evict(maxAge, later), z);
    PacedClocked(k, gap, start, Sweep(maxAge, later, z));
  }

  /** The state in which the second round begins. */
  lemma SecondRound(c: Limits, start: real, maxAge: real, k: nat, gap: real, fall: real, pause: real)
    requires Usable(c) && 0.0 <= maxAge <= pause && Pace(c, gap, fall) && Times(fall, k) == (c.tenantCapacity - 1) as real
    requires Earned(c.globalRate, pause) >= 1.0
    ensures var x, later := Paced(k + 1, gap, start), start + Times(gap, k) + pause;
            var s := Next(c, After(c, New(c, start), x), Evict(maxAge, later)).0;
            && AllGranted(c, New(c, start), x)
            && Alone(c, s, "tenant", later) && GlobalLevel(c, s, later) >= 1.0
            && Balance(c, s, "tenant", later) == c.tenantCapacity as real
  {
    var s0 := New(c, start);
    LevelNow(c.globalCapacity, c.globalRate, s0.global, start);
    PacedGranted(c, s0, k, gap, fall, start);
    SweepAfterPause(c, After(c, s0, Paced(k + 1, gap, start)), start + Times(gap, k), maxAge, pause);
  }

  lemma RoundsGranted(c: Limits, start: real, maxAge: real, k: nat, gap: real, fall: real, pause: real)
    requires Usable(c) && 0.0 <= maxAge <= pause && Pace(c, gap, fall) && Times(fall, k) == (c.tenantCapacity - 1) as real
    requires Earned(c.globalRate, pause) >= 1.0
    ensures var x, later := Paced(k + 1, gap, start), start + Times(gap, k) + pause;
            && AllGranted(c, New(c, start), x)
            && AllGranted(c, Next(c, After(c, New(c, start), x), Evict(maxAge, later)).0, Paced(k + 1, gap, later))
  {
    var x, later := Paced(k + 1, gap, start), start + Times(gap, k) + pause;
    SecondRound(c, start, maxAge, k, gap, fall, pause);
    PacedGranted(c, Next(c, After(c, New(c, start), x), Evict(maxAge, later)).0, k, gap, fall, later);
  }

  lemma RoundsOverdraw(c: Limits, start: real, maxAge: real, k: nat, gap: real, fall: real, pause: real)
    requires Usable(c) && 0.0 <= maxAge <= pause && Pace(c, gap, fall) && Times(fall, k) == (c.tenantCapacity - 1) as real
    requires Earned(c.globalRate, pause) >= 1.0 && Earned(c.tenantRate, pause) < c.tenantCapacity as real
    ensures var later := start + Times(gap, k) + pause;
            Overdraws(c, start, maxAge, Paced(k + 1, gap, start), later, Paced(k + 1, gap, later))
  {
    var later := start + Times(gap, k) + pause;
    RoundsGranted(c, start, maxAge, k, gap, fall, pause);
    RoundsClocked(k, gap, start, maxAge, later);
    PacedEnds(k, gap, later);
    RoundsEarn(c, k, gap, fall, pause);
    assert later + Times(gap, k) - start == Times(gap, k) + pause + Times(gap, k);
  }

  // ----- Exactly when -----------------------------------------------------------------------------------------------------

  lemma FastOverdraft(c: Limits, start: real, maxAge: real) returns (x: seq<Event>, later: real, z: seq<Event>)
    requires Usable(c) && 0.0 <= maxAge && !IsPatient(c, maxAge) && c.globalRate > c.tenantRate && c.globalCapacity >= 1
    ensures Overdraws(c, start, maxAge, x, later, z)
  {
    var k, gap, fall := SomePace(c);
    var pause := Pause(c, maxAge);
    RoundsOverdraw(c, start, maxAge, k, gap, fall, pause);
    later := start + Times(gap, k) + pause;
    x, z := Paced(k + 1, gap, start), Paced(k + 1, gap, later);
  }

  lemma SlowOverdraft(c: Limits, start: real, maxAge: real) returns (x: seq<Event>, later: real, z: seq<Event>)
    requires Usable(c) && 0.0 <= maxAge && !IsPatient(c, maxAge) && !Tight(c, maxAge) && c.globalRate <= c.tenantRate
    ensures Overdraws(c, start, maxAge, x, later, z)
  {
    var length, n := SomeAffordable(c, maxAge);
    BurstsOverdraw(c, start, maxAge, length, n);
    later := start + length;
    x, z := Burst("tenant", c.tenantCapacity, start), Burst("tenant", n, later);
  }

  /** If the sweeps are impatient and the global bucket is not tight, some run overdraws. */
  lemma SomeOverdraft(c: Limits, start: real, maxAge: real) returns (x: seq<Event>, later: real, z: seq<Event>)
    requires Rates(c) && c.maxTenants >= 1 && 0.0 <= maxAge && !IsPatient(c, maxAge) && !Tight(c, maxAge)
    ensures Overdraws(c, start, maxAge, x, later, z)
  {
    EarnedSome(c.tenantRate, maxAge);
    if c.globalRate > c.tenantRate {
      x, later, z := FastOverdraft(c, start, maxAge);
    } else {
      x, later, z := SlowOverdraft(c, start, maxAge);
    }
  }

  /** The window bound of a tenant holds in all runs exactly when the sweeps are patient, the global bucket is
      tight, or no tenant is ever admitted. */
  lemma TenantWindowIff(c: Limits, start: real, maxAge: real)
    requires Rates(c) && 0.0 <= maxAge
    ensures Bounded(c, start, maxAge) <==> IsPatient(c, maxAge) || Tight(c, maxAge) || c.maxTenants == 0
  {
    if IsPatient(c, maxAge) || Tight(c, maxAge) || c.maxTenants == 0 {
      BoundedIf(c, start, maxAge);
    } else {
      var x, later, z := SomeOverdraft(c, start, maxAge);
      OverdraftBreaks(c, start, maxAge, x, later, z);
    }
  }

  /** For equal rates: patient sweeps, or a global bucket no larger than a tenant's. */
  lemma TightAtEqualRates(c: Limits, maxAge: real)
    requires Rates(c) && c.globalRate == c.tenantRate && 0.0 <= maxAge
    ensures Tight(c, maxAge) <==> c.globalCapacity <= c.tenantCapacity
  {
    var gap := (c.globalCapacity - c.tenantCapacity) as real;
    if c.globalRate == 0.0 {
      assert Earned(c.tenantRate, maxAge) == 0.0;
    } else if gap > 0.0 {
      Strictly(c.tenantRate, 0.0, gap);
    } else {
      MulMonotone(c.tenantRate, gap, 0.0);
    }
  }

  /** Unless sweeps are patient or the global bucket is tight, they also change decisions: some request of some
      run is granted that a limiter without sweeps refuses. */
  lemma ImpatientAdmitsMore(c: Limits, start: real, maxAge: real) returns (trace: seq<Event>, i: nat)
    requires Rates(c) && c.maxTenants >= 1 && 0.0 <= maxAge && !IsPatient(c, maxAge) && !Tight(c, maxAge)
    ensures Clocked(start, trace)
    ensures i < |trace| == |Answers(c, New(c, start), trace)| == |Unevicted(c, New(c, start), trace)|
    ensures Answers(c, New(c, start), trace)[i] == Granted && Unevicted(c, New(c, start), trace)[i] != Granted
  {
    var x, later, z := SomeOverdraft(c, start, maxAge);
    i := OverdraftAdmitsMore(c, start, maxAge, x, later, z);
    trace := x + Sweep(maxAge, later, z);
  }
}
