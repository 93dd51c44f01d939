/**
 When stale-tenant eviction shows (crates/traffic-control/src/rate_limiter.rs, evict_stale_tenants): the
 conditions under which the limiter answers like one that never evicts are necessary as well as sufficient.
 */
module TenantEviction {
  import opened Basics
  import opened ApiRateLimiter

  predicate Rates(c: Limits) { c.globalRate >= 0.0 && c.tenantRate >= 0.0 }

  // ----- Putting runs together ---------------------------------------------------------------------------

  function After(c: Limits, s: Limiter, trace: seq<Event>): Limiter
    decreases |trace|
  {
    if trace == [] then s else After(c, Next(c, s, trace[0]).0, trace[1..])
  }

  lemma {:induction false} AnswersConcat(c: Limits, s: Limiter, x: seq<Event>, y: seq<Event>)
    ensures Answers(c, s, x + y) == Answers(c, s, x) + Answers(c, After(c, s, x), y)
    ensures After(c, s, x + y) == After(c, After(c, s, x), y)
    ensures |Answers(c, s, x)| == |x|
    decreases |x|
  {
    if x == [] {
      assert x + y == y;
    } else {
      assert (x + y)[1..] == x[1..] + y;
      AnswersConcat(c, Next(c, s, x[0]).0, x[1..], y);
    }
  }

  lemma AfterSnoc(c: Limits, s: Limiter, x: seq<Event>, e: Event)
    ensures After(c, s, x + [e]) == Next(c, After(c, s, x), e).0
  {
    AnswersConcat(c, s, x, [e]);
    assert [e][1..] == [];
  }

  lemma {:induction false} UnevictedConcat(c: Limits, s: Limiter, x: seq<Event>, y: seq<Event>)
    requires forall i :: 0 <= i < |x| ==> x[i].Request?
    ensures Unevicted(c, s, x + y) == Answers(c, s, x) + Unevicted(c, After(c, s, x), y)
    decreases |x|
  {
    if x == [] {
      assert x + y == y;
    } else {
      assert (x + y)[1..] == x[1..] + y;
      UnevictedConcat(c, Next(c, s, x[0]).0, x[1..], y);
    }
  }

  lemma {:induction false} NamesConcat(x: seq<Event>, y: seq<Event>)
    ensures Names(x + y) == Names(x) + Names(y)
    decreases |x|
  {
    if x == [] {
      assert x + y == y;
    } else {
      assert (x + y)[1..] == x[1..] + y;
      NamesConcat(x[1..], y);
    }
  }

  /** Requests at one instant come before everything that happens later. */
  lemma {:induction false} ClockedConcat(x: seq<Event>, now: real, y: seq<Event>)
    requires Clocked(now, y) && forall i :: 0 <= i < |x| ==> x[i].time == now
    ensures Clocked(now, x + y)
    decreases |x|
  {
    if x == [] {
      assert x + y == y;
    } else {
      assert (x + y)[1..] == x[1..] + y;
      ClockedConcat(x[1..], now, y);
    }
  }

  // ----- Bursts --------------------------------------------------------------------------------------------

  /** One tenant asks `n` times at the same instant. */
  function Burst(tenant: string, n: nat, now: real): (trace: seq<Event>)
    ensures |trace| == n && forall i :: 0 <= i < n ==> trace[i] == Request(tenant, now)
  {
    if n == 0 then [] else [Request(tenant, now)] + Burst(tenant, n - 1, now)
  }

  lemma {:induction false} BurstNames(tenant: string, n: nat, now: real)
    ensures Names(Burst(tenant, n, now)) == if n == 0 then {} else {tenant}
  {
    if n > 0 {
      assert Burst(tenant, n, now)[1..] == Burst(tenant, n - 1, now);
      BurstNames(tenant, n - 1, now);
    }
  }

  /** Only the bursting tenant is on record, if anyone. */
  ghost predicate Alone(c: Limits, s: Limiter, tenant: string, now: real) {
    Sound(c, s, now) && s.tenants.Keys <= {tenant} && c.maxTenants >= 1
  }

  lemma AloneRequest(c: Limits, s: Limiter, tenant: string, now: real)
    requires Alone(c, s, tenant, now)
    ensures var (s', a) := Next(c, s, Request(tenant, now));
            var level := Balance(c, s, tenant, now);
            && Alone(c, s', tenant, now) && tenant in s'.tenants && s'.tenants[tenant].lastAccessed == now
            && Balance(c, s', tenant, now) == (if level >= 1.0 then level - 1.0 else level)
            && (a.TenantQuotaExceeded? <==> level < 1.0)
  {
    RoomFor(c, s, tenant, {tenant});
    AcquireByBalance(c, s, tenant, now);
    NextSound(c, s, Request(tenant, now), now);
    var s' := Next(c, s, Request(tenant, now)).0;
    LevelNow(c.tenantCapacity, c.tenantRate, s'.tenants[tenant].bucket, now);
  }

  /** A burst within the tenant's balance passes the tenant layer. */
  lemma {:induction false} BurstPasses(c: Limits, s: Limiter, tenant: string, n: nat, now: real)
    requires Alone(c, s, tenant, now) && Balance(c, s, tenant, now) >= n as real
    ensures |Answers(c, s, Burst(tenant, n, now))| == n
    ensures forall i :: 0 <= i < n ==> !Answers(c, s, Burst(tenant, n, now))[i].TenantQuotaExceeded?
    ensures var s' := After(c, s, Burst(tenant, n, now));
            && Alone(c, s', tenant, now)
            && (n > 0 ==> tenant in s'.tenants && s'.tenants[tenant].lastAccessed == now)
            && Balance(c, s', tenant, now) == Balance(c, s, tenant, now) - n as real
    decreases n
  {
    if n > 0 {
      AloneRequest(c, s, tenant, now);
      assert Burst(tenant, n, now)[1..] == Burst(tenant, n - 1, now);
      BurstPasses(c, Next(c, s, Request(tenant, now)).0, tenant, n - 1, now);
    }
  }

  /** The last request of a burst beyond the tenant's balance is refused by the tenant layer. */
  lemma {:induction false} BurstRefused(c: Limits, s: Limiter, tenant: string, n: nat, now: real)
    requires Alone(c, s, tenant, now) && n > 0 && Balance(c, s, tenant, now) < n as real
    ensures |Answers(c, s, Burst(tenant, n, now))| == n
    ensures Answers(c, s, Burst(tenant, n, now))[n - 1].TenantQuotaExceeded?
    decreases n
  {
    AloneRequest(c, s, tenant, now);
    assert Burst(tenant, n, now)[1..] == Burst(tenant, n - 1, now);
    if n > 1 { BurstRefused(c, Next(c, s, Request(tenant, now)).0, tenant, n - 1, now); }
  }

  // ----- Sweeps too early ------------------------------------------------------------------------------------

  /** Spend a full bucket, let the sweep forget the tenant, spend a full bucket again. */
  function SpendTwice(c: Limits, start: real, maxAge: real): seq<Event> {
    Burst("tenant", c.tenantCapacity, start) + Again(c, start, maxAge)
  }

  function Again(c: Limits, start: real, maxAge: real): seq<Event> {
    [Evict(maxAge, start + maxAge)] + Burst("tenant", c.tenantCapacity, start + maxAge)
  }

  /** A limiter on which one tenant can ask at all. */
  predicate Usable(c: Limits) { Rates(c) && c.maxTenants >= 1 && c.tenantCapacity >= 1 }

  /** After the first burst. */
  ghost predicate Drained(c: Limits, s: Limiter, start: real) {
    && Alone(c, s, "tenant", start)
    && "tenant" in s.tenants && s.tenants["tenant"].lastAccessed == start
    && Balance(c, s, "tenant", start) == 0.0
  }

  lemma FirstBurst(c: Limits, start: real)
    requires Usable(c)
    ensures Drained(c, After(c, New(c, start), Burst("tenant", c.tenantCapacity, start)), start)
  {
    BurstPasses(c, New(c, start), "tenant", c.tenantCapacity, start);
  }

  lemma SweepForgets(c: Limits, s: Limiter, start: real, maxAge: real)
    requires Drained(c, s, start) && maxAge >= 0.0
    ensures var s' := Next(c, s, Evict(maxAge, start + maxAge)).0;
            s'.tenants == map[] && Alone(c, s', "tenant", start + maxAge)
  {
    NextSound(c, s, Evict(maxAge, start + maxAge), start);
  }

  lemma AgainAfterSweep(c: Limits, s: Limiter, start: real, maxAge: real)
    requires Usable(c) && maxAge >= 0.0 && Drained(c, s, start)
    ensures var y := Again(c, start, maxAge);
            |Answers(c, s, y)| == |y| && !Answers(c, s, y)[|y| - 1].TenantQuotaExceeded?
  {
    var later, n := start + maxAge, c.tenantCapacity;
    SweepForgets(c, s, start, maxAge);
    assert Again(c, start, maxAge)[1..] == Burst("tenant", n, later);
    BurstPasses(c, Next(c, s, Evict(maxAge, later)).0, "tenant", n, later);
  }

  lemma AgainUnswept(c: Limits, s: Limiter, start: real, maxAge: real)
    requires Usable(c) && maxAge >= 0.0 && Drained(c, s, start)
    requires Earned(c.tenantRate, maxAge) < c.tenantCapacity as real
    ensures var y := Again(c, start, maxAge);
            |Unevicted(c, s, y)| == |y| && Unevicted(c, s, y)[|y| - 1].TenantQuotaExceeded?
  {
    var later, burst := start + maxAge, Burst("tenant", c.tenantCapacity, start + maxAge);
    assert Again(c, start, maxAge)[1..] == burst && burst + [] == burst;
    BalanceLater(c, s, "tenant", start, later);
    assert later - start == maxAge;
    BurstRefused(c, s, "tenant", c.tenantCapacity, later);
    UnevictedConcat(c, s, burst, []);
  }

  /** Sweeps that use one age only. */
  predicate SameAge(maxAge: real, trace: seq<Event>) {
    forall i :: 0 <= i < |trace| && trace[i].Evict? ==> trace[i].maxAge == maxAge
  }

  /** Traces whose sweeps all use the same age, with at most `tenants` tenants. */
  ghost predicate Admissible(start: real, maxAge: real, tenants: nat, trace: seq<Event>) {
    Clocked(start, trace) && SameAge(maxAge, trace) && |Names(trace)| <= tenants
  }

  lemma SpendTwiceAdmissible(c: Limits, start: real, maxAge: real)
    requires maxAge >= 0.0
    ensures Admissible(start, maxAge, 1, SpendTwice(c, start, maxAge))
  {
    var later, n := start + maxAge, c.tenantCapacity;
    var x, y, z := Burst("tenant", n, start), Again(c, start, maxAge), Burst("tenant", n, later);
    assert y[1..] == z && z + [] == z;
    ClockedConcat(z, later, []);
    ClockedConcat(x, start, y);
    NamesConcat(x, y);
    BurstNames("tenant", n, start);
    BurstNames("tenant", n, later);
    SubsetSize(Names(x + y), {"tenant"});
  }

  /** Impatient sweeps show, whatever the global layer says: the tenant layer refuses the last request if the
      tenant is remembered and passes it if the tenant has been forgotten. */
  lemma ImpatientShows(c: Limits, start: real, maxAge: real)
    requires Usable(c) && maxAge >= 0.0 && Earned(c.tenantRate, maxAge) < c.tenantCapacity as real
    ensures var trace := SpendTwice(c, start, maxAge);
            Answers(c, New(c, start), trace) != Unevicted(c, New(c, start), trace)
  {
    var x, y := Burst("tenant", c.tenantCapacity, start), Again(c, start, maxAge);
    var s := After(c, New(c, start), x);
    FirstBurst(c, start);
    AnswersConcat(c, New(c, start), x, y);
    UnevictedConcat(c, New(c, start), x, y);
    AgainAfterSweep(c, s, start, maxAge);
    AgainUnswept(c, s, start, maxAge);
    var last := |x| + |y| - 1;
    assert !(Answers(c, New(c, start), x) + Answers(c, s, y))[last].TenantQuotaExceeded?;
    assert (Answers(c, New(c, start), x) + Unevicted(c, s, y))[last].TenantQuotaExceeded?;
  }

  /** Sweeps of this age change no answer of any run with at most `tenants` tenants. */
  ghost predicate Invisible(c: Limits, start: real, maxAge: real, tenants: nat) {
    forall trace :: Admissible(start, maxAge, tenants, trace) ==>
      Answers(c, New(c, start), trace) == Unevicted(c, New(c, start), trace)
  }

  lemma PatientIsInvisible(c: Limits, start: real, maxAge: real, tenants: nat)
    requires Rates(c) && tenants <= c.maxTenants && Earned(c.tenantRate, maxAge) >= c.tenantCapacity as real
    ensures Invisible(c, start, maxAge, tenants)
  {
    forall trace | Admissible(start, maxAge, tenants, trace)
      ensures Answers(c, New(c, start), trace) == Unevicted(c, New(c, start), trace)
    {
      EvictionIsInvisible(c, start, trace);
    }
  }

  /** Sweeps of a given age are invisible in all runs whose tenants fit exactly when that age refills a
      tenant bucket. */
  lemma InvisibleIffPatient(c: Limits, start: real, maxAge: real)
    requires Usable(c) && maxAge >= 0.0
    ensures Invisible(c, start, maxAge, c.maxTenants) <==> Earned(c.tenantRate, maxAge) >= c.tenantCapacity as real
  {
    if Earned(c.tenantRate, maxAge) >= c.tenantCapacity as real {
      PatientIsInvisible(c, start, maxAge, c.maxTenants);
    } else {
      SpendTwiceAdmissible(c, start, maxAge);
      ImpatientShows(c, start, maxAge);
    }
  }

  // ----- Too many tenants --------------------------------------------------------------------------------------

  function Name(k: nat): (name: string)
    ensures |name| == k
  {
    if k == 0 then "" else "t" + Name(k - 1)
  }

  /** `n` different tenants register at the same instant. */
  function Fill(n: nat, now: real): (trace: seq<Event>)
    ensures |trace| == n && forall i :: 0 <= i < n ==> trace[i] == Request(Name(i), now)
  {
    if n == 0 then [] else Fill(n - 1, now) + [Request(Name(n - 1), now)]
  }

  function NamesBelow(n: nat): set<string> { if n == 0 then {} else NamesBelow(n - 1) + {Name(n - 1)} }

  lemma {:induction false} NamesBelowCount(n: nat)
    ensures |NamesBelow(n)| == n && forall x :: x in NamesBelow(n) ==> |x| < n
  {
    if n > 0 { NamesBelowCount(n - 1); }
  }

  lemma {:induction false} FillNames(n: nat, now: real)
    ensures Names(Fill(n, now)) == NamesBelow(n)
  {
    if n > 0 {
      var last := [Request(Name(n - 1), now)];
      FillNames(n - 1, now);
      NamesConcat(Fill(n - 1, now), last);
      assert last[1..] == [] && Names(last) == {Name(n - 1)};
      NamesBelowCount(n - 1);
    }
  }

  /** Exactly these tenants are on record, all last seen at `now`. */
  ghost predicate OnRecord(c: Limits, s: Limiter, names: set<string>, now: real) {
    Sound(c, s, now) && s.tenants.Keys == names && forall k :: k in s.tenants ==> s.tenants[k].lastAccessed == now
  }

  lemma Registers(c: Limits, s: Limiter, names: set<string>, tenant: string, now: real)
    requires OnRecord(c, s, names, now) && |names| < c.maxTenants
    ensures OnRecord(c, Next(c, s, Request(tenant, now)).0, names + {tenant}, now)
  {
    NextSound(c, s, Request(tenant, now), now);
    assert |s.tenants.Keys| == |s.tenants|;
    AcquireByBalance(c, s, tenant, now);
  }

  lemma {:induction false} FillRegisters(c: Limits, n: nat, now: real)
    requires Rates(c) && n <= c.maxTenants
    ensures OnRecord(c, After(c, New(c, now), Fill(n, now)), NamesBelow(n), now)
  {
    if n > 0 {
      FillRegisters(c, n - 1, now);
      NamesBelowCount(n - 1);
      Registers(c, After(c, New(c, now), Fill(n - 1, now)), NamesBelow(n - 1), Name(n - 1), now);
      AfterSnoc(c, New(c, now), Fill(n - 1, now), Request(Name(n - 1), now));
    }
  }

  /** A newcomer finds no room, however often it asks. */
  lemma {:induction false} CrowdedOut(c: Limits, s: Limiter, tenant: string, n: nat, now: real)
    requires tenant !in s.tenants && |s.tenants| >= c.maxTenants
    ensures |Answers(c, s, Burst(tenant, n, now))| == n
    ensures forall i :: 0 <= i < n ==> !Answers(c, s, Burst(tenant, n, now))[i].TenantQuotaExceeded?
    decreases n
  {
    if n > 0 {
      assert Burst(tenant, n, now)[1..] == Burst(tenant, n - 1, now);
      CrowdedOut(c, s, tenant, n - 1, now);
    }
  }

  /** Fill the map, sweep, and let one newcomer ask for more than a bucket. */
  function Crowd(c: Limits, start: real, maxAge: real): seq<Event> {
    Fill(c.maxTenants, start) + Newcomer(c, start + maxAge, maxAge)
  }

  function Newcomer(c: Limits, later: real, maxAge: real): seq<Event> {
    [Evict(maxAge, later)] + Burst(Name(c.maxTenants), c.tenantCapacity + 1, later)
  }

  lemma NewcomerStarts(c: Limits, later: real, maxAge: real)
    ensures var y := Newcomer(c, later, maxAge);
            y[0] == Evict(maxAge, later) && y[1..] == Burst(Name(c.maxTenants), c.tenantCapacity + 1, later)
  {
  }

  lemma NewcomerNames(c: Limits, later: real, maxAge: real)
    ensures Names(Newcomer(c, later, maxAge)) == {Name(c.maxTenants)}
  {
    NewcomerStarts(c, later, maxAge);
    BurstNames(Name(c.maxTenants), c.tenantCapacity + 1, later);
  }

  lemma CrowdNames(x: seq<Event>, y: seq<Event>, n: nat)
    requires Names(x) == NamesBelow(n) && Names(y) == {Name(n)}
    ensures |Names(x + y)| == n + 1
  {
    NamesConcat(x, y);
    NamesBelowCount(n + 1);
    assert Names(x + y) == NamesBelow(n + 1);
  }

  lemma CrowdClocked(c: Limits, start: real, maxAge: real)
    requires maxAge >= 0.0
    ensures Clocked(start, Crowd(c, start, maxAge)) && SameAge(maxAge, Crowd(c, start, maxAge))
  {
    var later, n := start + maxAge, c.maxTenants;
    var y, z := Newcomer(c, later, maxAge), Burst(Name(n), c.tenantCapacity + 1, later);
    assert y[1..] == z && z + [] == z;
    ClockedConcat(z, later, []);
    ClockedConcat(Fill(n, start), start, y);
  }

  lemma NewcomerAfterSweep(c: Limits, s: Limiter, start: real, maxAge: real)
    requires Rates(c) && c.maxTenants >= 1 && maxAge >= 0.0
    requires OnRecord(c, s, NamesBelow(c.maxTenants), start)
    ensures var y := Newcomer(c, start + maxAge, maxAge);
            |Answers(c, s, y)| == |y| && Answers(c, s, y)[|y| - 1].TenantQuotaExceeded?
  {
    var later, tenant, n := start + maxAge, Name(c.maxTenants), c.tenantCapacity + 1;
    NextSound(c, s, Evict(maxAge, later), start);
    var s' := Next(c, s, Evict(maxAge, later)).0;
    assert s'.tenants == map[];
    NewcomerStarts(c, later, maxAge);
    BurstRefused(c, s', tenant, n, later);
  }

  lemma Crowded(c: Limits, s: Limiter, now: real)
    requires OnRecord(c, s, NamesBelow(c.maxTenants), now)
    ensures Name(c.maxTenants) !in s.tenants && |s.tenants| == c.maxTenants
  {
    NamesBelowCount(c.maxTenants);
    assert |s.tenants.Keys| == |s.tenants|;
  }

  lemma NewcomerUnswept(c: Limits, s: Limiter, start: real, maxAge: real)
    requires OnRecord(c, s, NamesBelow(c.maxTenants), start)
    ensures var y := Newcomer(c, start + maxAge, maxAge);
            |Unevicted(c, s, y)| == |y| && !Unevicted(c, s, y)[|y| - 1].TenantQuotaExceeded?
  {
    var later, tenant, n := start + maxAge, Name(c.maxTenants), c.tenantCapacity + 1;
    var burst := Burst(tenant, n, later);
    Crowded(c, s, start);
    NewcomerStarts(c, later, maxAge);
    assert burst + [] == burst;
    CrowdedOut(c, s, tenant, n, later);
    UnevictedConcat(c, s, burst, []);
  }

  /** With one tenant more than fits, a sweep of any age shows, for every limit: it makes room. */
  lemma CrowdShows(c: Limits, start: real, maxAge: real)
    requires Rates(c) && c.maxTenants >= 1 && maxAge >= 0.0
    ensures var trace := Crowd(c, start, maxAge);
            Answers(c, New(c, start), trace) != Unevicted(c, New(c, start), trace)
  {
    var x, y := Fill(c.maxTenants, start), Newcomer(c, start + maxAge, maxAge);
    var s := After(c, New(c, start), x);
    FillRegisters(c, c.maxTenants, start);
    AnswersConcat(c, New(c, start), x, y);
    UnevictedConcat(c, New(c, start), x, y);
    NewcomerAfterSweep(c, s, start, maxAge);
    NewcomerUnswept(c, s, start, maxAge);
    var last := |x| + |y| - 1;
    assert (Answers(c, New(c, start), x) + Answers(c, s, y))[last].TenantQuotaExceeded?;
    assert !(Answers(c, New(c, start), x) + Unevicted(c, s, y))[last].TenantQuotaExceeded?;
  }

  /** Patient sweeps are invisible up to a number of tenants exactly when that many fit. */
  lemma InvisibleIffTheyFit(c: Limits, start: real, maxAge: real, tenants: nat)
    requires Rates(c) && c.maxTenants >= 1 && maxAge >= 0.0
    requires Earned(c.tenantRate, maxAge) >= c.tenantCapacity as real
    ensures Invisible(c, start, maxAge, tenants) <==> tenants <= c.maxTenants
  {
    if tenants <= c.maxTenants {
      PatientIsInvisible(c, start, maxAge, tenants);
    } else {
      CrowdClocked(c, start, maxAge);
      FillNames(c.maxTenants, start);
      NewcomerNames(c, start + maxAge, maxAge);
      CrowdNames(Fill(c.maxTenants, start), Newcomer(c, start + maxAge, maxAge), c.maxTenants);
      CrowdShows(c, start, maxAge);
      assert Admissible(start, maxAge, tenants, Crowd(c, start, maxAge));
    }
  }
}
