/**
 The window bound of a single tenant under sweeps (crates/traffic-control/src/rate_limiter.rs, SimpleTokenBucket
 and evict_stale_tenants): for which limits and sweep ages no tenant is ever granted more than its capacity plus
 what its rate earns. A sweep hands the tenant a new bucket, so what is left to stop it is the global bucket.
 */
module TenantWindow {
  import opened Ledger
  import opened ApiRateLimiter
  import opened TenantEviction

  /** One window of one run keeps within the tenant's capacity plus what it earns. */
  predicate WithinBound(r: Run, i: nat, j: nat)
    requires r.Sized() && i < j <= |r.trace|
  {
    r.Grants(i, j) as real <= r.limits.tenantCapacity as real
                              + Earned(r.limits.tenantRate, r.trace[j - 1].time - r.trace[i].time)
  }

  /** A run of one tenant's purse under sweeps of one age, and a window of it. */
  ghost predicate Window(c: Limits, start: real, maxAge: real, r: Run, i: nat, j: nat) {
    r.Valid(start) && r.limits == c && r.purse.Own? && SameAge(maxAge, r.trace) && i < j <= |r.trace|
  }

  /** The tenant window bound holds in every window of every run whose sweeps use this age. */
  ghost predicate Bounded(c: Limits, start: real, maxAge: real) {
    forall r: Run, i: nat, j: nat :: Window(c, start, maxAge, r, i, j) ==> WithinBound(r, i, j)
  }

  predicate IsPatient(c: Limits, maxAge: real) { Earned(c.tenantRate, maxAge) >= c.tenantCapacity as real }

  /** The least whole number of tokens that a tenant does not earn within one sweep's age. */
  function Excess(c: Limits, maxAge: real): int { Earned(c.tenantRate, maxAge).Floor + 1 }

  /** The global bucket never leaves a tenant room for more than its bound: nothing is ever granted if it refills
      faster than a tenant; otherwise it cannot serve a full tenant bucket and the excess, not even at the last
      moment before the tenant would have earned it anyway. */
  predicate Tight(c: Limits, maxAge: real) {
    if c.globalRate > c.tenantRate then c.globalCapacity == 0
    else if c.globalRate == 0.0 then c.globalCapacity < c.tenantCapacity + Excess(c, maxAge)
    else c.tenantRate * (c.globalCapacity - c.tenantCapacity) as real
         <= Excess(c, maxAge) as real * (c.tenantRate - c.globalRate)
  }

  // ----- Windows shorter than the age -----------------------------------------------------------------------

  lemma {:induction false} TimesOrdered(r: Run, start: real, i: nat, j: nat)
    requires r.Valid(start) && i <= j < |r.trace|
    ensures r.trace[i].time <= r.trace[j].time
    decreases j
  {
    if i < j {
      TimesOrdered(r, start, i, j - 1);
      assert r.TimeAt(j) >= r.TimeAt(j - 1);
    }
  }

  lemma {:induction false} GrantsSplit(r: Run, i: nat, m: nat, j: nat)
    requires r.Sized() && i <= m <= j <= |r.trace|
    ensures r.Grants(i, j) == r.Grants(i, m) + r.Grants(m, j)
    decreases j
  {
    if m < j { GrantsSplit(r, i, m, j - 1); }
  }

  /** The tenant is on record and was seen at `since` or later. */
  predicate Seen(s: Limiter, tenant: string, since: real) {
    tenant in s.tenants && s.tenants[tenant].lastAccessed >= since
  }

  /** A sweep too early to forget the tenant, or a request, pays no more than the balance loses. */
  lemma SeenStep(c: Limits, s: Limiter, e: Event, tenant: string, since: real)
    requires Sound(c, s, e.time) && since <= e.time
    requires e.Evict? ==> Seen(s, tenant, since) && e.time - since < e.maxAge
    ensures var (s', a) := Next(c, s, e);
            && Balance(c, s', tenant, e.time) + (if Pays(Own(tenant), e, a) then 1.0 else 0.0) <= Balance(c, s, tenant, e.time)
            && (Seen(s, tenant, since) || Pays(Own(tenant), e, a) ==> Seen(s', tenant, since))
  {
    if e.Request? { OwnPays(c, s, e, tenant); }
  }

  /** From a granted request of the tenant on, no sweep of a window shorter than the age forgets it. */
  ghost predicate Remembered(r: Run, i: nat, j: nat, maxAge: real)
    requires r.Sized() && r.purse.Own?
  {
    i < j <= |r.trace| && r.PaysAt(i) && r.trace[j - 1].time - r.trace[i].time < maxAge && SameAge(maxAge, r.trace)
  }

  lemma {:induction false} StaysSeen(r: Run, start: real, i: nat, j: nat, maxAge: real)
    requires r.Valid(start) && r.purse.Own? && Remembered(r, i, j, maxAge)
    ensures Seen(r.states[j], r.purse.tenant, r.trace[i].time)
    decreases j
  {
    RunSound(r, start, j - 1);
    assert r.StepAt(j - 1);
    TimesOrdered(r, start, i, j - 1);
    if j > i + 1 {
      TimesOrdered(r, start, j - 2, j - 1);
      StaysSeen(r, start, i, j - 1, maxAge);
    }
    SeenStep(r.limits, r.states[j - 1], r.trace[j - 1], r.purse.tenant, r.trace[i].time);
  }

  lemma ShortEntry(r: Run, start: real, i: nat, k: nat, maxAge: real)
    requires r.Valid(start) && r.purse.Own? && Remembered(r, i, k + 1, maxAge)
    ensures r.Entry(k).balance + r.Entry(k).paid <= Holdings(r.limits, r.purse, r.states[k], r.trace[k].time)
    ensures Capped(r.Entry(k), r.limits.tenantCapacity as real)
  {
    RunSound(r, start, k);
    assert r.StepAt(k);
    TimesOrdered(r, start, i, k);
    if k > i {
      TimesOrdered(r, start, k - 1, k);
      StaysSeen(r, start, i, k, maxAge);
    }
    SeenStep(r.limits, r.states[k], r.trace[k], r.purse.tenant, r.trace[i].time);
    HoldingsSound(r.limits, r.purse, r.states[k], r.trace[k].time);
    HoldingsSound(r.limits, r.purse, r.states[k + 1], r.trace[k].time);
  }

  lemma EarlierRemembered(r: Run, start: real, i: nat, k: nat, j: nat, maxAge: real)
    requires r.Valid(start) && r.purse.Own? && Remembered(r, i, j, maxAge) && i < k <= j
    ensures Remembered(r, i, k, maxAge)
  {
    TimesOrdered(r, start, k - 1, j - 1);
  }

  lemma ShortConforms(r: Run, start: real, i: nat, j: nat, maxAge: real)
    requires r.Valid(start) && r.purse.Own? && Remembered(r, i, j, maxAge)
    ensures Conforms(r.Entries()[i..j], r.limits.tenantCapacity as real)
  {
    var calls := r.Entries()[i..j];
    forall k | 0 <= k < |calls| ensures Capped(calls[k], r.limits.tenantCapacity as real) {
      EarlierRemembered(r, start, i, i + k + 1, j, maxAge);
      ShortEntry(r, start, i, i + k, maxAge);
    }
    forall k | 0 < k < |calls| ensures Follows(calls[k - 1], calls[k]) {
      EarlierRemembered(r, start, i, i + k + 1, j, maxAge);
      ShortEntry(r, start, i, i + k, maxAge);
      assert r.EarnedAt(i + k) && r.EarnedAt(i + k - 1) && r.TimeAt(i + k) >= r.TimeAt(i + k - 1);
      EarnedBetween(r, i + k);
    }
  }

  lemma ShortPaid(r: Run, start: real, i: nat, j: nat, maxAge: real)
    requires r.Valid(start) && r.purse.Own? && Remembered(r, i, j, maxAge)
    ensures Paid(r.Entries()[i..j]) <= r.limits.tenantCapacity as real + (r.earned[j - 1] - r.earned[i])
  {
    ShortConforms(r, start, i, j, maxAge);
    var calls := r.Entries()[i..j];
    WindowBound(calls, r.limits.tenantCapacity as real, 0, j - i);
    assert calls[0..j - i] == calls;
  }

  /** Windows that start with a grant and are shorter than the age. */
  lemma ShortFromGrant(r: Run, start: real, i: nat, j: nat, maxAge: real)
    requires r.Valid(start) && r.purse.Own? && Remembered(r, i, j, maxAge)
    ensures WithinBound(r, i, j)
  {
    ShortPaid(r, start, i, j, maxAge);
    PaidIsGrants(r, i, j);
    WindowEarned(r, start, i, j);
  }

  lemma LongerEarnsMore(c: Limits, a: real, b: real)
    requires c.tenantRate >= 0.0 && a <= b
    ensures Earned(c.tenantRate, a) <= Earned(c.tenantRate, b)
  {
    MulMonotone(c.tenantRate, a, b);
  }

  /** Every window shorter than the age, whatever the limits. */
  lemma {:induction false} ShortIsBounded(r: Run, start: real, i: nat, j: nat, maxAge: real)
    requires Window(r.limits, start, maxAge, r, i, j) && r.trace[j - 1].time - r.trace[i].time < maxAge
    ensures WithinBound(r, i, j)
    decreases j - i
  {
    TimesOrdered(r, start, i, j - 1);
    if r.PaysAt(i) {
      ShortFromGrant(r, start, i, j, maxAge);
    } else if i + 1 == j {
      assert r.Grants(i, i) == 0;
      EarnedSome(r.limits.tenantRate, 0.0);
    } else {
      TimesOrdered(r, start, i, i + 1);
      ShortIsBounded(r, start, i + 1, j, maxAge);
      GrantsSplit(r, i, i + 1, j);
      assert r.Grants(i, i) == 0;
      LongerEarnsMore(r.limits, r.trace[j - 1].time - r.trace[i + 1].time, r.trace[j - 1].time - r.trace[i].time);
    }
  }

  // ----- What the global bucket allows ------------------------------------------------------------------------

  /** The same run as seen by the global bucket. */
  function Globally(r: Run): Run
    requires r.Sized()
  {
    r.(purse := Purse.Shared,
       earned := seq(|r.trace|, i requires 0 <= i < |r.trace| => Earned(r.limits.globalRate, r.trace[i].time)))
  }

  lemma GloballyValid(r: Run, start: real)
    requires r.Valid(start)
    ensures Globally(r).Valid(start)
  {
    var g := Globally(r);
    forall i | 0 <= i < |g.trace| ensures g.StepAt(i) { assert r.StepAt(i); }
    assert forall i :: 0 <= i < |g.trace| ==> g.TimeAt(i) == r.TimeAt(i);
  }

  lemma {:induction false} OwnIsShared(r: Run, i: nat, j: nat)
    requires r.Sized() && r.purse.Own? && i <= j <= |r.trace|
    ensures r.Grants(i, j) <= Globally(r).Grants(i, j)
    decreases j
  {
    if i < j { OwnIsShared(r, i, j - 1); }
  }

  /** A tenant is granted no more than the global bucket lets through. */
  lemma GlobalBound(r: Run, start: real, i: nat, j: nat)
    requires r.Valid(start) && r.purse.Own? && i < j <= |r.trace|
    ensures r.Grants(i, j) as real <= r.limits.globalCapacity as real
                                      + Earned(r.limits.globalRate, r.trace[j - 1].time - r.trace[i].time)
  {
    GloballyValid(r, start);
    LimiterWindow(Globally(r), start, i, j);
    OwnIsShared(r, i, j);
  }

  lemma {:induction false} NothingGranted(r: Run, start: real, i: nat, j: nat)
    requires r.Valid(start) && r.limits.globalCapacity == 0 && i <= j <= |r.trace|
    ensures r.Grants(i, j) == 0
    decreases j
  {
    if i < j {
      NothingGranted(r, start, i, j - 1);
      RunSound(r, start, j - 1);
      assert r.StepAt(j - 1);
      LevelSound(0, r.limits.globalRate, r.states[j - 1].global, r.trace[j - 1].time);
    }
  }

  /** More grants than the tenant's bound, in a window at least as long as the age, need a global bucket that is
      not tight. The products are named: `tl` is tenant rate times length, `gl` global rate times length. */
  lemma OverTheBound(n: int, t: int, g: int, tr: real, gr: real, length: real, tl: real, gl: real, ta: real)
    requires 0.0 <= gr <= tr && tl == tr * length && gl == gr * length && ta <= tl
    requires n as real <= g as real + gl && n as real > t as real + tl
    ensures var m := ta.Floor + 1;
            if gr == 0.0 then g >= t + m else tr * (g - t) as real > m as real * (tr - gr)
  {
    var k, m := n - t, ta.Floor + 1;
    assert k >= m;
    if gr == 0.0 {
      assert gl == 0.0;
    } else {
      assert gr * tl == tr * gl;
      MulMonotone(tr, k as real - gl, (g - t) as real);
      MulSplit(tr, k as real, -gl);
      Strictly(gr, tl, k as real);
      MulMonotone(tr - gr, m as real, k as real);
    }
  }

  lemma Strictly(rate: real, a: real, b: real)
    requires rate > 0.0 && a < b
    ensures rate * a < rate * b
  {
  }

  lemma TightKeeps(c: Limits, maxAge: real, length: real, n: int)
    requires Rates(c) && c.globalRate <= c.tenantRate && Tight(c, maxAge) && maxAge <= length
    requires n as real <= c.globalCapacity as real + Earned(c.globalRate, length)
    ensures n as real <= c.tenantCapacity as real + Earned(c.tenantRate, length)
  {
    LongerEarnsMore(c, maxAge, length);
    if n as real > c.tenantCapacity as real + Earned(c.tenantRate, length) {
      OverTheBound(n, c.tenantCapacity, c.globalCapacity, c.tenantRate, c.globalRate, length,
                   Earned(c.tenantRate, length), Earned(c.globalRate, length), Earned(c.tenantRate, maxAge));
    }
  }

  lemma LongIsBounded(r: Run, start: real, i: nat, j: nat, maxAge: real)
    requires Window(r.limits, start, maxAge, r, i, j) && r.trace[j - 1].time - r.trace[i].time >= maxAge
    requires Tight(r.limits, maxAge)
    ensures WithinBound(r, i, j)
  {
    var c, length := r.limits, r.trace[j - 1].time - r.trace[i].time;
    TimesOrdered(r, start, i, j - 1);
    EarnedSome(c.tenantRate, length);
    if c.globalRate > c.tenantRate {
      NothingGranted(r, start, i, j);
    } else {
      GlobalBound(r, start, i, j);
      TightKeeps(c, maxAge, length, r.Grants(i, j));
    }
  }

  lemma PatientWindow(r: Run, start: real, i: nat, j: nat, maxAge: real)
    requires Window(r.limits, start, maxAge, r, i, j) && IsPatient(r.limits, maxAge)
    ensures WithinBound(r, i, j)
  {
    LimiterWindow(r, start, i, j);
  }

  /** A limiter that tracks no tenants has no room for any. */
  lemma {:induction false} NobodyFits(r: Run, start: real, i: nat, j: nat)
    requires r.Valid(start) && r.limits.maxTenants == 0 && i <= j <= |r.trace|
    ensures r.states[j].tenants == map[] && r.Grants(i, j) == 0
    decreases j
  {
    if i < j {
      NobodyFits(r, start, i, j - 1);
      assert r.StepAt(j - 1);
    } else if j > 0 {
      NobodyFits(r, start, j - 1, j - 1);
      assert r.StepAt(j - 1);
    }
  }

  lemma EmptyIsBounded(r: Run, start: real, i: nat, j: nat)
    requires r.Valid(start) && r.limits.maxTenants == 0 && i < j <= |r.trace|
    ensures WithinBound(r, i, j)
  {
    NobodyFits(r, start, i, j);
    TimesOrdered(r, start, i, j - 1);
    EarnedSome(r.limits.tenantRate, r.trace[j - 1].time - r.trace[i].time);
  }

  /** Patient sweeps, a tight global bucket or no room for anybody: no tenant ever exceeds its bound. */
  lemma BoundedIf(c: Limits, start: real, maxAge: real)
    requires Rates(c) && (IsPatient(c, maxAge) || Tight(c, maxAge) || c.maxTenants == 0)
    ensures Bounded(c, start, maxAge)
  {
    forall r: Run, i: nat, j: nat | Window(c, start, maxAge, r, i, j) ensures WithinBound(r, i, j) {
      if IsPatient(c, maxAge) {
        PatientWindow(r, start, i, j, maxAge);
      } else if c.maxTenants == 0 {
        EmptyIsBounded(r, start, i, j);
      } else if r.trace[j - 1].time - r.trace[i].time < maxAge {
        ShortIsBounded(r, start, i, j, maxAge);
      } else {
        LongIsBounded(r, start, i, j, maxAge);
      }
    }
  }
}
