/**
 The dual-layer tenant and global limiter with stale-tenant eviction
 (crates/traffic-control/src/rate_limiter.rs, SimpleTokenBucket and ApiRateLimiter). Token counts are
 reals and each call reads the clock once.
 */
module ApiRateLimiter {
  import opened Ledger
  import opened Basics

  datatype Limits = Limits(globalCapacity: nat, globalRate: real, tenantCapacity: nat, tenantRate: real, maxTenants: nat)

  datatype Bucket = Bucket(tokens: real, lastRefill: real)

  datatype Tenant = Tenant(bucket: Bucket, lastAccessed: real)

  datatype Limiter = Limiter(global: Bucket, tenants: map<string, Tenant>)

  datatype Answer =
    | Granted
    | TenantQuotaExceeded(tenant: string, limit: nat, refillRate: real)
    | GlobalRateLimitExceeded(capacity: nat, available: int)
    | Swept

  datatype Event = Request(tenant: string, time: real) | Evict(maxAge: real, time: real)

  // ----- One bucket --------------------------------------------------------------------------------

  function Min(a: real, b: real): real { if a <= b then a else b }

  function Full(capacity: nat, now: real): Bucket { Bucket(capacity as real, now) }

  function Earned(rate: real, elapsed: real): real { rate * elapsed }

  function Topped(tokens: real, addition: real, capacity: real): real { Min(tokens + addition, capacity) }

  /** The tokens a refill at `now` leaves in the bucket. */
  function Level(capacity: nat, rate: real, b: Bucket, now: real): real {
    Topped(b.tokens, Earned(rate, now - b.lastRefill), capacity as real)
  }

  /** A refill followed by an attempt to take one token. */
  function Draw(capacity: nat, rate: real, b: Bucket, now: real): (Bucket, bool) {
    Take(Level(capacity, rate, b, now), now)
  }

  function Take(level: real, now: real): (Bucket, bool) {
    if level >= 1.0 then (Bucket(level - 1.0, now), true) else (Bucket(level, now), false)
  }

  // ----- The two layers ------------------------------------------------------------------------------

  function TenantBucket(c: Limits, s: Limiter, tenant: string, now: real): Bucket {
    if tenant in s.tenants then s.tenants[tenant].bucket else Full(c.tenantCapacity, now)
  }

  /** One request. A token taken from the tenant is gone even if the global layer then refuses. */
  function Acquire(c: Limits, s: Limiter, tenant: string, now: real): (Limiter, Answer) {
    if tenant !in s.tenants && |s.tenants| >= c.maxTenants then (s, GlobalRateLimitExceeded(c.tenantCapacity, 0))
    else
      var (own, ok) := Draw(c.tenantCapacity, c.tenantRate, TenantBucket(c, s, tenant, now), now);
      var s' := s.(tenants := s.tenants[tenant := Tenant(own, now)]);
      if !ok then (s', TenantQuotaExceeded(tenant, c.tenantCapacity, c.tenantRate))
      else
        var (shared, ok') := Draw(c.globalCapacity, c.globalRate, s.global, now);
        (s'.(global := shared),
         if ok' then Granted else GlobalRateLimitExceeded(c.tenantCapacity, shared.tokens.Floor))
  }

  function Retained(tenants: map<string, Tenant>, maxAge: real, now: real): map<string, Tenant> {
    map k | k in tenants && now - tenants[k].lastAccessed < maxAge :: tenants[k]
  }

  function Next(c: Limits, s: Limiter, e: Event): (Limiter, Answer) {
    match e
    case Request(tenant, now) => Acquire(c, s, tenant, now)
    case Evict(maxAge, now) => (s.(tenants := Retained(s.tenants, maxAge, now)), Swept)
  }

  function New(c: Limits, now: real): Limiter { Limiter(Full(c.globalCapacity, now), map[]) }

  class ApiRateLimiter {
    const limits: Limits
    var global: Bucket
    var tenants: map<string, Tenant>

    function View(): Limiter
      reads this
    {
      Limiter(global, tenants)
    }

    constructor (limits: Limits, now: real)
      ensures this.limits == limits && View() == New(limits, now)
    {
      this.limits := limits;
      global, tenants := Full(limits.globalCapacity, now), map[];
    }

    method AcquireApiToken(tenant: string, now: real) returns (answer: Answer)
      modifies this
      ensures (View(), answer) == Acquire(limits, old(View()), tenant, now)
    {
      if tenant !in tenants && |tenants| >= limits.maxTenants {
        return GlobalRateLimitExceeded(limits.tenantCapacity, 0);
      }
      if tenant !in tenants {
        tenants := tenants[tenant := Tenant(Full(limits.tenantCapacity, now), now)];
      }
      var own, ok := TryAcquire(limits.tenantCapacity, limits.tenantRate, tenants[tenant].bucket, now);
      tenants := tenants[tenant := Tenant(own, now)];
      assert tenants == old(tenants)[tenant := Tenant(own, now)];
      if !ok { return TenantQuotaExceeded(tenant, limits.tenantCapacity, limits.tenantRate); }
      global, ok := TryAcquire(limits.globalCapacity, limits.globalRate, global, now);
      if !ok { return GlobalRateLimitExceeded(limits.tenantCapacity, global.tokens.Floor); }
      return Granted;
    }

    static method TryAcquire(capacity: nat, rate: real, b: Bucket, now: real) returns (b': Bucket, ok: bool)
      ensures (b', ok) == Draw(capacity, rate, b, now)
    {
      var addition := Earned(rate, now - b.lastRefill);
      b' := Bucket(Topped(b.tokens, addition, capacity as real), now);
      ok := b'.tokens >= 1.0;
      if ok { b' := b'.(tokens := b'.tokens - 1.0); }
    }

    method EvictStaleTenants(maxAge: real, now: real) returns (evicted: int)
      modifies this
      ensures (View(), Swept) == Next(limits, old(View()), Evict(maxAge, now))
      ensures evicted == |old(tenants)| - |tenants|
    {
      var before := |tenants|;
      tenants := Retained(tenants, maxAge, now);
      evicted := before - |tenants|;
    }
  }

  // ----- Runs ------------------------------------------------------------------------------------------

  predicate Clocked(now: real, trace: seq<Event>)
    decreases |trace|
  {
    trace == [] || (now <= trace[0].time && Clocked(trace[0].time, trace[1..]))
  }

  /** The run of a limiter that sweeps out stale tenants. */
  function Answers(c: Limits, s: Limiter, trace: seq<Event>): seq<Answer>
    decreases |trace|
  {
    if trace == [] then [] else var (s', a) := Next(c, s, trace[0]); [a] + Answers(c, s', trace[1..])
  }

  /** The run of a limiter that never evicts. */
  function Unevicted(c: Limits, s: Limiter, trace: seq<Event>): seq<Answer>
    decreases |trace|
  {
    if trace == [] then []
    else if trace[0].Evict? then [Swept] + Unevicted(c, s, trace[1..])
    else var (s', a) := Next(c, s, trace[0]); [a] + Unevicted(c, s', trace[1..])
  }

  function Names(trace: seq<Event>): set<string>
    decreases |trace|
  {
    if trace == [] then {}
    else (if trace[0].Request? then {trace[0].tenant} else {}) + Names(trace[1..])
  }

  /** Every sweep leaves alone whoever could not have refilled completely in the meantime. */
  predicate Patient(c: Limits, e: Event) { e.Evict? ==> Earned(c.tenantRate, e.maxAge) >= c.tenantCapacity as real }

  predicate AllPatient(c: Limits, trace: seq<Event>) { forall i :: 0 <= i < |trace| ==> Patient(c, trace[i]) }

  // ----- What every step keeps --------------------------------------------------------------------------

  predicate SoundBucket(b: Bucket, capacity: nat, now: real) {
    0.0 <= b.tokens <= capacity as real && b.lastRefill <= now
  }

  predicate SoundTenant(t: Tenant, capacity: nat, now: real) {
    SoundBucket(t.bucket, capacity, now) && t.lastAccessed == t.bucket.lastRefill
  }

  ghost predicate Sound(c: Limits, s: Limiter, now: real) {
    && c.globalRate >= 0.0 && c.tenantRate >= 0.0
    && SoundBucket(s.global, c.globalCapacity, now)
    && forall k :: k in s.tenants ==> SoundTenant(s.tenants[k], c.tenantCapacity, now)
  }

  lemma LevelSound(capacity: nat, rate: real, b: Bucket, now: real)
    requires rate >= 0.0 && SoundBucket(b, capacity, now)
    ensures b.tokens <= Level(capacity, rate, b, now) <= capacity as real
  {
    EarnedSome(rate, now - b.lastRefill);
  }

  lemma DrawSound(capacity: nat, rate: real, b: Bucket, now: real)
    requires rate >= 0.0 && SoundBucket(b, capacity, now)
    ensures SoundBucket(Draw(capacity, rate, b, now).0, capacity, now)
  {
    LevelSound(capacity, rate, b, now);
  }

  lemma NextSound(c: Limits, s: Limiter, e: Event, before: real)
    requires Sound(c, s, before) && before <= e.time
    ensures Sound(c, Next(c, s, e).0, e.time)
  {
    if e.Request? {
      DrawSound(c.tenantCapacity, c.tenantRate, TenantBucket(c, s, e.tenant, e.time), e.time);
      DrawSound(c.globalCapacity, c.globalRate, s.global, e.time);
    }
  }

  /** The tokens `tenant` could spend at `now`; nobody on record means a full bucket. */
  function Balance(c: Limits, s: Limiter, tenant: string, now: real): real {
    if tenant in s.tenants then Level(c.tenantCapacity, c.tenantRate, s.tenants[tenant].bucket, now)
    else c.tenantCapacity as real
  }

  /** Levels can be brought forward in two steps. */
  lemma LevelLater(capacity: nat, rate: real, b: Bucket, t: real, now: real)
    requires rate >= 0.0 && t <= now
    ensures Level(capacity, rate, b, now) == Topped(Level(capacity, rate, b, t), Earned(rate, now - t), capacity as real)
  {
    EarnedSplit(rate, t - b.lastRefill, now - t, now - b.lastRefill);
    EarnedSome(rate, now - t);
    ToppedTwice(b.tokens, Earned(rate, t - b.lastRefill), Earned(rate, now - t), capacity as real);
  }

  lemma EarnedSplit(rate: real, a: real, b: real, sum: real)
    requires a + b == sum
    ensures Earned(rate, sum) == Earned(rate, a) + Earned(rate, b)
  {
    MulSplit(rate, a, b);
  }

  lemma EarnedSome(rate: real, elapsed: real)
    requires rate >= 0.0 && elapsed >= 0.0
    ensures Earned(rate, elapsed) >= 0.0
  {
    MulMonotone(rate, 0.0, elapsed);
  }

  lemma ToppedTwice(tokens: real, x: real, y: real, capacity: real)
    requires y >= 0.0
    ensures Topped(tokens, x + y, capacity) == Topped(Topped(tokens, x, capacity), y, capacity)
  {
  }

  lemma LevelGrows(capacity: nat, rate: real, b: Bucket, t: real, now: real)
    requires rate >= 0.0 && t <= now
    ensures Level(capacity, rate, b, t) <= Level(capacity, rate, b, now)
    ensures Level(capacity, rate, b, now) <= Level(capacity, rate, b, t) + (Earned(rate, now) - Earned(rate, t))
  {
    LevelLater(capacity, rate, b, t, now);
    EarnedSome(rate, now - t);
    EarnedSplit(rate, t, now - t, now);
  }

  lemma BalanceLater(c: Limits, s: Limiter, tenant: string, t: real, now: real)
    requires c.tenantRate >= 0.0 && t <= now
    ensures Balance(c, s, tenant, now)
         == Topped(Balance(c, s, tenant, t), Earned(c.tenantRate, now - t), c.tenantCapacity as real)
  {
    if tenant in s.tenants {
      LevelLater(c.tenantCapacity, c.tenantRate, s.tenants[tenant].bucket, t, now);
    } else {
      EarnedSome(c.tenantRate, now - t);
    }
  }

  lemma LevelNow(capacity: nat, rate: real, b: Bucket, now: real)
    requires b.lastRefill == now && b.tokens <= capacity as real
    ensures Level(capacity, rate, b, now) == b.tokens
  {
    assert Earned(rate, 0.0) == 0.0;
  }

  /** A tenant draws on its balance, whether or not it has a bucket on record. */
  lemma DrawsBalance(c: Limits, s: Limiter, tenant: string, now: real)
    ensures Draw(c.tenantCapacity, c.tenantRate, TenantBucket(c, s, tenant, now), now)
         == Take(Balance(c, s, tenant, now), now)
  {
    if tenant !in s.tenants { LevelNow(c.tenantCapacity, c.tenantRate, Full(c.tenantCapacity, now), now); }
  }

  lemma PatientMeansFull(c: Limits, t: Tenant, e: Event)
    requires c.tenantRate >= 0.0 && SoundTenant(t, c.tenantCapacity, e.time)
    requires Patient(c, e) && e.Evict? && e.time - t.lastAccessed >= e.maxAge
    ensures Level(c.tenantCapacity, c.tenantRate, t.bucket, e.time) == c.tenantCapacity as real
  {
    MulMonotone(c.tenantRate, e.maxAge, e.time - t.lastAccessed);
  }

  /** A patient sweep changes nobody's balance. */
  lemma SweepKeepsBalance(c: Limits, s: Limiter, e: Event, tenant: string)
    requires Sound(c, s, e.time) && e.Evict? && Patient(c, e)
    ensures Balance(c, Next(c, s, e).0, tenant, e.time) == Balance(c, s, tenant, e.time)
  {
    if tenant in s.tenants && e.time - s.tenants[tenant].lastAccessed >= e.maxAge {
      PatientMeansFull(c, s.tenants[tenant], e);
    }
  }

  // ----- Eviction is invisible --------------------------------------------------------------------------

  /** The evicting limiter `s` and the other one `t` agree on everything a request can feel. */
  ghost predicate Alike(c: Limits, s: Limiter, t: Limiter, now: real) {
    && Sound(c, s, now) && Sound(c, t, now)
    && s.global == t.global && s.tenants.Keys <= t.tenants.Keys
    && forall k :: Balance(c, s, k, now) == Balance(c, t, k, now)
  }

  lemma AlikeLater(c: Limits, s: Limiter, t: Limiter, before: real, now: real)
    requires Alike(c, s, t, before) && before <= now
    ensures Alike(c, s, t, now)
  {
    forall k ensures Balance(c, s, k, now) == Balance(c, t, k, now) {
      assert Balance(c, s, k, before) == Balance(c, t, k, before);
      BalanceLater(c, s, k, before, now);
      BalanceLater(c, t, k, before, now);
    }
  }

  /** There is room for `tenant` while the names in play do not exceed the limit. */
  lemma RoomFor(c: Limits, s: Limiter, tenant: string, names: set<string>)
    requires s.tenants.Keys <= names && tenant in names && |names| <= c.maxTenants
    ensures tenant in s.tenants || |s.tenants| < c.maxTenants
  {
    if tenant !in s.tenants { SubsetSize(s.tenants.Keys + {tenant}, names); }
  }

  /** A request that finds room: the decision and the new state, in terms of the balance. */
  lemma AcquireByBalance(c: Limits, s: Limiter, tenant: string, now: real)
    requires tenant in s.tenants || |s.tenants| < c.maxTenants
    ensures var (own, ok) := Take(Balance(c, s, tenant, now), now);
            var (shared, ok') := Draw(c.globalCapacity, c.globalRate, s.global, now);
            Acquire(c, s, tenant, now)
              == (Limiter(if ok then shared else s.global, s.tenants[tenant := Tenant(own, now)]),
                  if !ok then TenantQuotaExceeded(tenant, c.tenantCapacity, c.tenantRate)
                  else if ok' then Granted else GlobalRateLimitExceeded(c.tenantCapacity, shared.tokens.Floor))
  {
    DrawsBalance(c, s, tenant, now);
  }

  /** What an answer says: granted exactly if there is room and both layers hold a token. A refusal by the tenant
      layer names the tenant's limits; one by the global layer, or for want of room, names the capacity of a tenant
      and always reports zero tokens left. */
  lemma AnswerTells(c: Limits, s: Limiter, tenant: string, now: real)
    requires Sound(c, s, now)
    ensures var room := tenant in s.tenants || |s.tenants| < c.maxTenants;
            var own, shared := Balance(c, s, tenant, now) >= 1.0, Level(c.globalCapacity, c.globalRate, s.global, now) >= 1.0;
            match Next(c, s, Request(tenant, now)).1
            case Granted => room && own && shared
            case TenantQuotaExceeded(t, limit, rate) =>
              room && !own && t == tenant && limit == c.tenantCapacity && rate == c.tenantRate
            case GlobalRateLimitExceeded(capacity, available) =>
              (!room || (own && !shared)) && capacity == c.tenantCapacity && available == 0
            case Swept => false
  {
    LevelSound(c.globalCapacity, c.globalRate, s.global, now);
    if tenant in s.tenants || |s.tenants| < c.maxTenants { AcquireByBalance(c, s, tenant, now); }
  }

  lemma AlikeRequest(c: Limits, s: Limiter, t: Limiter, e: Event, names: set<string>)
    requires Alike(c, s, t, e.time) && e.Request? && e.tenant in names
    requires t.tenants.Keys <= names && |names| <= c.maxTenants
    ensures Next(c, s, e).1 == Next(c, t, e).1 && Alike(c, Next(c, s, e).0, Next(c, t, e).0, e.time)
    ensures Next(c, t, e).0.tenants.Keys <= names
  {
    RoomFor(c, s, e.tenant, names);
    RoomFor(c, t, e.tenant, names);
    AcquireByBalance(c, s, e.tenant, e.time);
    AcquireByBalance(c, t, e.tenant, e.time);
    NextSound(c, s, e, e.time);
    NextSound(c, t, e, e.time);
    var s', t' := Next(c, s, e).0, Next(c, t, e).0;
    forall k ensures Balance(c, s', k, e.time) == Balance(c, t', k, e.time) {
      assert Balance(c, s, k, e.time) == Balance(c, t, k, e.time);
    }
  }

  lemma AlikeSweep(c: Limits, s: Limiter, t: Limiter, e: Event)
    requires Alike(c, s, t, e.time) && e.Evict? && Patient(c, e)
    ensures Alike(c, Next(c, s, e).0, t, e.time)
  {
    var s' := Next(c, s, e).0;
    NextSound(c, s, e, e.time);
    forall k ensures Balance(c, s', k, e.time) == Balance(c, t, k, e.time) {
      assert Balance(c, s, k, e.time) == Balance(c, t, k, e.time);
      SweepKeepsBalance(c, s, e, k);
    }
  }

  lemma {:induction false} AlikeRuns(c: Limits, s: Limiter, t: Limiter, before: real, trace: seq<Event>, names: set<string>)
    requires Alike(c, s, t, before) && Clocked(before, trace) && AllPatient(c, trace)
    requires t.tenants.Keys <= names && Names(trace) <= names && |names| <= c.maxTenants
    ensures Answers(c, s, trace) == Unevicted(c, t, trace)
    decreases |trace|
  {
    if trace != [] {
      var e := trace[0];
      AlikeLater(c, s, t, before, e.time);
      assert Patient(c, e);
      if e.Evict? {
        AlikeSweep(c, s, t, e);
        AlikeRuns(c, Next(c, s, e).0, t, e.time, trace[1..], names);
      } else {
        AlikeRequest(c, s, t, e, names);
        AlikeRuns(c, Next(c, s, e).0, Next(c, t, e).0, e.time, trace[1..], names);
      }
    }
  }

  /** If every sweep waits at least as long as an empty tenant bucket takes to fill, and no more than
      `maxTenants` tenants ever show up, the limiter answers every request of every run exactly like one
      that never evicts. */
  lemma EvictionIsInvisible(c: Limits, start: real, trace: seq<Event>)
    requires c.globalRate >= 0.0 && c.tenantRate >= 0.0
    requires Clocked(start, trace) && AllPatient(c, trace) && |Names(trace)| <= c.maxTenants
    ensures Answers(c, New(c, start), trace) == Unevicted(c, New(c, start), trace)
  {
    AlikeRuns(c, New(c, start), New(c, start), start, trace, Names(trace));
  }

  // ----- Window conformance ---------------------------------------------------------------------------------

  /** Whose tokens are counted: those of the shared bucket or those of one tenant. */
  datatype Purse = Shared | Own(tenant: string)

  function Capacity(c: Limits, p: Purse): nat { if p.Shared? then c.globalCapacity else c.tenantCapacity }

  function Rate(c: Limits, p: Purse): real { if p.Shared? then c.globalRate else c.tenantRate }

  function Holdings(c: Limits, p: Purse, s: Limiter, now: real): real {
    match p
    case Shared => Level(c.globalCapacity, c.globalRate, s.global, now)
    case Own(tenant) => Balance(c, s, tenant, now)
  }

  predicate Pays(p: Purse, e: Event, a: Answer) { a == Granted && e.Request? && (p.Own? ==> e.tenant == p.tenant) }

  lemma HoldingsSound(c: Limits, p: Purse, s: Limiter, now: real)
    requires Sound(c, s, now)
    ensures 0.0 <= Holdings(c, p, s, now) <= Capacity(c, p) as real
  {
    LevelSound(c.globalCapacity, c.globalRate, s.global, now);
    if p.Own? && p.tenant in s.tenants {
      LevelSound(c.tenantCapacity, c.tenantRate, s.tenants[p.tenant].bucket, now);
    }
  }

  lemma HoldingsGrow(c: Limits, p: Purse, s: Limiter, t: real, now: real)
    requires c.globalRate >= 0.0 && c.tenantRate >= 0.0 && t <= now
    ensures Holdings(c, p, s, now) <= Holdings(c, p, s, t) + (Earned(Rate(c, p), now) - Earned(Rate(c, p), t))
  {
    if p.Shared? {
      LevelGrows(c.globalCapacity, c.globalRate, s.global, t, now);
    } else if p.tenant in s.tenants {
      LevelGrows(c.tenantCapacity, c.tenantRate, s.tenants[p.tenant].bucket, t, now);
    } else {
      MulMonotone(c.tenantRate, t, now);
    }
  }

  lemma EarnedGrow(c: Limits, p: Purse, s: Limiter, t: real, now: real, earned: real, earned': real)
    requires c.globalRate >= 0.0 && c.tenantRate >= 0.0 && t <= now
    requires earned == Earned(Rate(c, p), t) && earned' == Earned(Rate(c, p), now)
    ensures Holdings(c, p, s, now) <= Holdings(c, p, s, t) + (earned' - earned)
  {
    HoldingsGrow(c, p, s, t, now);
  }

  lemma SharedPays(c: Limits, s: Limiter, e: Event)
    requires Sound(c, s, e.time) && e.Request?
    ensures var (s', a) := Next(c, s, e);
            Holdings(c, Shared, s', e.time) + (if a == Granted then 1.0 else 0.0) <= Holdings(c, Shared, s, e.time)
  {
    var s' := Next(c, s, e).0;
    LevelSound(c.globalCapacity, c.globalRate, s.global, e.time);
    if s'.global != s.global { LevelNow(c.globalCapacity, c.globalRate, s'.global, e.time); }
  }

  lemma OwnPays(c: Limits, s: Limiter, e: Event, tenant: string)
    requires Sound(c, s, e.time) && e.Request?
    ensures var (s', a) := Next(c, s, e);
            Balance(c, s', tenant, e.time) + (if Pays(Own(tenant), e, a) then 1.0 else 0.0)
              <= Balance(c, s, tenant, e.time)
  {
    if e.tenant == tenant && (tenant in s.tenants || |s.tenants| < c.maxTenants) {
      AcquireByBalance(c, s, tenant, e.time);
      HoldingsSound(c, Own(tenant), s, e.time);
      LevelNow(c.tenantCapacity, c.tenantRate, Next(c, s, e).0.tenants[tenant].bucket, e.time);
    }
  }

  /** No step lets a purse pay more than it loses. */
  lemma PurseStep(c: Limits, p: Purse, s: Limiter, e: Event)
    requires Sound(c, s, e.time) && (p.Own? ==> Patient(c, e))
    ensures var (s', a) := Next(c, s, e);
            Holdings(c, p, s', e.time) + (if Pays(p, e, a) then 1.0 else 0.0) <= Holdings(c, p, s, e.time)
  {
    if e.Evict? {
      if p.Own? { SweepKeepsBalance(c, s, e, p.tenant); }
    } else if p.Shared? {
      SharedPays(c, s, e);
    } else {
      OwnPays(c, s, e, p.tenant);
    }
  }

  /** A run of the limiter, and what the rate of a purse has earned by the time of each event. */
  datatype Run = Run(limits: Limits, purse: Purse, trace: seq<Event>, states: seq<Limiter>, answers: seq<Answer>,
                     earned: seq<real>)
  {
    predicate Sized() { |earned| == |answers| == |trace| && |states| == |trace| + 1 }

    ghost predicate Valid(start: real) {
      && Sized() && limits.globalRate >= 0.0 && limits.tenantRate >= 0.0
      && states[0] == New(limits, start)
      && (forall i {:trigger TimeAt(i)} :: 0 <= i < |trace| ==> TimeAt(i) >= if i == 0 then start else TimeAt(i - 1))
      && (forall i {:trigger StepAt(i)} :: 0 <= i < |trace| ==> StepAt(i))
      && (forall i {:trigger EarnedAt(i)} :: 0 <= i < |trace| ==> EarnedAt(i))
    }

    function TimeAt(i: int): real
      requires 0 <= i < |trace|
    {
      trace[i].time
    }

    predicate StepAt(i: int)
      requires Sized() && 0 <= i < |trace|
    {
      (states[i + 1], answers[i]) == Next(limits, states[i], trace[i])
    }

    predicate EarnedAt(i: int)
      requires Sized() && 0 <= i < |trace|
    {
      earned[i] == Earned(Rate(limits, purse), trace[i].time)
    }

    predicate PaysAt(i: int)
      requires Sized() && 0 <= i < |trace|
    {
      Pays(purse, trace[i], answers[i])
    }

    function Entry(i: int): Call
      requires Sized() && 0 <= i < |trace|
    {
      Call(earned[i], if PaysAt(i) then 1.0 else 0.0, Holdings(limits, purse, states[i + 1], trace[i].time))
    }

    function Entries(): (calls: seq<Call>)
      requires Sized()
      ensures |calls| == |trace| && forall i :: 0 <= i < |calls| ==> calls[i] == Entry(i)
    {
      seq(|trace|, i requires 0 <= i < |trace| => Entry(i))
    }

    /** Requests granted by events `i .. j-1` and charged to the purse. */
    function Grants(i: int, j: int): nat
      requires Sized() && 0 <= i <= j <= |trace|
      decreases j
    {
      if i == j then 0 else Grants(i, j - 1) + if PaysAt(j - 1) then 1 else 0
    }
  }

  /** Between two neighbouring events every state is sound at the time of the later one. */
  lemma {:induction false} RunSound(r: Run, start: real, i: nat)
    requires r.Valid(start) && i < |r.trace|
    ensures Sound(r.limits, r.states[i], r.trace[i].time)
    ensures Sound(r.limits, r.states[i + 1], r.trace[i].time)
  {
    var before := if i == 0 then start else r.TimeAt(i - 1);
    assert r.TimeAt(i) >= before;
    if i > 0 { RunSound(r, start, i - 1); }
    assert r.StepAt(i);
    NextSound(r.limits, r.states[i], r.trace[i], before);
  }

  lemma EntryBalance(r: Run, start: real, i: nat)
    requires r.Valid(start) && (r.purse.Own? ==> AllPatient(r.limits, r.trace)) && i < |r.trace|
    ensures r.Entry(i).balance + r.Entry(i).paid <= Holdings(r.limits, r.purse, r.states[i], r.trace[i].time)
    ensures Capped(r.Entry(i), Capacity(r.limits, r.purse) as real)
  {
    RunSound(r, start, i);
    assert r.StepAt(i) && (r.purse.Own? ==> Patient(r.limits, r.trace[i]));
    PurseStep(r.limits, r.purse, r.states[i], r.trace[i]);
    HoldingsSound(r.limits, r.purse, r.states[i], r.trace[i].time);
    HoldingsSound(r.limits, r.purse, r.states[i + 1], r.trace[i].time);
  }

  lemma EarnedBetween(r: Run, i: nat)
    requires r.Sized() && 0 < i < |r.trace| && r.limits.globalRate >= 0.0 && r.limits.tenantRate >= 0.0
    requires r.EarnedAt(i) && r.EarnedAt(i - 1) && r.TimeAt(i) >= r.TimeAt(i - 1)
    ensures Holdings(r.limits, r.purse, r.states[i], r.trace[i].time)
              <= r.Entry(i - 1).balance + (r.earned[i] - r.earned[i - 1])
  {
    EarnedGrow(r.limits, r.purse, r.states[i], r.trace[i - 1].time, r.trace[i].time, r.earned[i - 1], r.earned[i]);
  }

  lemma RunConforms(r: Run, start: real)
    requires r.Valid(start) && (r.purse.Own? ==> AllPatient(r.limits, r.trace))
    ensures Conforms(r.Entries(), Capacity(r.limits, r.purse) as real)
  {
    var calls := r.Entries();
    forall i | 0 <= i < |calls| ensures Capped(calls[i], Capacity(r.limits, r.purse) as real) {
      EntryBalance(r, start, i);
    }
    forall i | 0 < i < |calls| ensures Follows(calls[i - 1], calls[i]) {
      EntryBalance(r, start, i);
      assert r.EarnedAt(i) && r.EarnedAt(i - 1) && r.TimeAt(i) >= r.TimeAt(i - 1);
      EarnedBetween(r, i);
    }
  }

  lemma {:induction false} PaidIsGrants(r: Run, i: nat, j: nat)
    requires r.Sized() && i <= j <= |r.trace|
    ensures Paid(r.Entries()[i..j]) == r.Grants(i, j) as real
    decreases j
  {
    if i < j {
      PaidIsGrants(r, i, j - 1);
      PaidSnoc(r.Entries(), i, j);
    }
  }

  lemma WindowEarned(r: Run, start: real, i: nat, j: nat)
    requires r.Valid(start) && i < j <= |r.trace|
    ensures r.earned[j - 1] - r.earned[i] == Earned(Rate(r.limits, r.purse), r.trace[j - 1].time - r.trace[i].time)
  {
    assert r.EarnedAt(i) && r.EarnedAt(j - 1);
    EarnedSplit(Rate(r.limits, r.purse), r.trace[i].time, r.trace[j - 1].time - r.trace[i].time, r.trace[j - 1].time);
  }

  /** In every window of every run, the requests granted are at most one full bucket plus what the
      refill rate earns over the window: for the shared bucket always, and for each tenant as long as
      the sweeps are patient. */
  lemma LimiterWindow(r: Run, start: real, i: nat, j: nat)
    requires r.Valid(start) && (r.purse.Own? ==> AllPatient(r.limits, r.trace)) && i < j <= |r.trace|
    ensures r.Grants(i, j) as real
              <= Capacity(r.limits, r.purse) as real + Earned(Rate(r.limits, r.purse), r.trace[j - 1].time - r.trace[i].time)
  {
    RunConforms(r, start);
    WindowBound(r.Entries(), Capacity(r.limits, r.purse) as real, i, j);
    PaidIsGrants(r, i, j);
    WindowEarned(r, start, i, j);
  }
}
