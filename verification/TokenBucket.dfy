/**
 The egress token bucket with whole tokens (crates/traffic-control/src/rate_limiter.rs, TokenBucket),
 one call at a time: window conformance and the meaning of the reported retry delay.
 */
module TokenBucket {
  import opened Ledger
  import opened Basics

  const LAST_U64: real := 18446744073709551615.0

  datatype BucketConfig = BucketConfig(maxTokens: nat, refillRate: real, cost: nat)

  datatype Bucket = Bucket(tokens: nat, lastRefill: real, limited: bool)

  datatype Result = Granted | RateLimited(retryAfter: nat)

  /** The float-to-u64 cast: saturating at both ends. */
  function Saturate(x: int): (n: nat)
    ensures n < U64
    ensures 0 <= x < U64 ==> n == x
    ensures x >= 0 ==> n <= x
  {
    if x < 0 then 0 else if x < U64 then x else U64 - 1
  }

  function Ceil(x: real): (n: int)
    ensures x <= n as real < x + 1.0
  {
    -((-x).Floor)
  }

  /** Whole tokens earned over `elapsed` seconds. */
  function Credit(elapsed: real, rate: real): (n: nat)
    ensures elapsed * rate >= 0.0 ==> n as real <= elapsed * rate
    ensures n < U64
  {
    Saturate((elapsed * rate).Floor)
  }

  /** The new token count after adding `add`: a wrapping 64-bit sum, capped. */
  function Refilled(tokens: nat, add: nat, max: nat): (n: nat)
    requires tokens <= max
    ensures n <= max && n <= tokens + add
    ensures tokens + add < U64 ==> n == if tokens + add <= max then tokens + add else max
  {
    if add == 0 then tokens
    else
      var sum := (tokens + add) % U64;
      if sum <= max then sum else max
  }

  function RetryAfter(tokens: nat, config: BucketConfig): nat {
    if tokens >= config.cost then 0
    else if config.refillRate == 0.0 then U64 - 1
    else Saturate(Ceil((config.cost - tokens) as real / config.refillRate))
  }

  /** Whole tokens due since the last refill. */
  function Due(b: Bucket, config: BucketConfig, now: real): (add: nat)
    ensures add < U64
  {
    Credit(now - b.lastRefill, config.refillRate)
  }

  function Refill(b: Bucket, config: BucketConfig, now: real, add: nat): (r: Bucket)
    requires b.tokens <= config.maxTokens
    ensures r.tokens <= config.maxTokens && r.lastRefill == now
  {
    b.(tokens := Refilled(b.tokens, add, config.maxTokens), lastRefill := now)
  }

  /** One call at time `now` with `add` tokens due. */
  function Acquire(b: Bucket, config: BucketConfig, now: real, add: nat): (r: (Bucket, Result))
    requires b.tokens <= config.maxTokens
    ensures r.0.tokens <= config.maxTokens && r.0.lastRefill == now && (r.0.limited <==> r.1.RateLimited?)
  {
    var f := Refill(b, config, now, add);
    if f.tokens < config.cost then (f.(limited := true), RateLimited(RetryAfter(f.tokens, config)))
    else (f.(tokens := f.tokens - config.cost, limited := false), Granted)
  }

  class TokenBucket {
    const config: BucketConfig
    var tokens: nat
    var lastRefill: real
    var isLimited: bool

    ghost predicate Valid()
      reads this
    {
      tokens <= config.maxTokens
    }

    function View(): Bucket
      reads this
    {
      Bucket(tokens, lastRefill, isLimited)
    }

    constructor (config: BucketConfig, now: real)
      ensures Valid() && this.config == config && View() == Bucket(config.maxTokens, now, false)
    {
      this.config := config;
      tokens, lastRefill, isLimited := config.maxTokens, now, false;
    }

    method TryAcquire(now: real) returns (r: Result)
      requires Valid()
      modifies this
      ensures Valid() && (View(), r) == Acquire(old(View()), config, now, Due(old(View()), config, now))
    {
      RefillTokens(now);
      if tokens < config.cost {
        isLimited := true;
        r := RateLimited(RetryAfter(tokens, config));
      } else {
        tokens := tokens - config.cost;
        isLimited := false;
        r := Granted;
      }
    }

    method RefillTokens(now: real)
      requires Valid()
      modifies this
      ensures Valid() && View() == Refill(old(View()), config, now, Due(old(View()), config, now))
    {
      var add := Credit(now - lastRefill, config.refillRate);
      lastRefill := now;
      tokens := Refilled(tokens, add, config.maxTokens);
    }
  }

  // ----- Window conformance --------------------------------------------------------------------

  /** A run: the state before each call and after the last, every verdict, the tokens due at
      each call, and what the refill rate has earned by the time of each call. */
  datatype Run = Run(config: BucketConfig, times: seq<real>, due: seq<nat>, earned: seq<real>,
                     states: seq<Bucket>, verdicts: seq<Result>)
  {
    predicate Sized() {
      |verdicts| == |earned| == |due| == |times| && |states| == |times| + 1
    }

    ghost predicate Valid() {
      && Sized() && config.refillRate >= 0.0
      && NonDecreasing(times) && (times != [] ==> states[0].lastRefill <= times[0])
      && (forall i :: 0 <= i < |states| ==> states[i].tokens <= config.maxTokens)
      && (forall i :: 0 <= i < |times| ==> StepAt(i))
      && (forall i :: 0 <= i < |times| ==> DueAt(i))
      && (forall i :: 0 <= i < |times| ==> EarnedAt(i))
    }

    ghost predicate StepAt(i: int)
      requires Sized() && 0 <= i < |times|
      requires forall k :: 0 <= k < |states| ==> states[k].tokens <= config.maxTokens
    {
      (states[i + 1], verdicts[i]) == Acquire(states[i], config, times[i], due[i])
    }

    ghost predicate DueAt(i: int)
      requires Sized() && 0 <= i < |times|
    {
      due[i] == Due(states[i], config, times[i])
    }

    predicate EarnedAt(i: int)
      requires Sized() && 0 <= i < |times|
    {
      earned[i] == config.refillRate * times[i]
    }

    function Entry(i: int): Call
      requires Sized() && 0 <= i < |times|
    {
      Call(earned[i], if verdicts[i].Granted? then config.cost as real else 0.0, states[i + 1].tokens as real)
    }

    function Calls(): (calls: seq<Call>)
      requires Sized()
      ensures |calls| == |times| && forall i :: 0 <= i < |calls| ==> calls[i] == Entry(i)
    {
      seq(|times|, i requires 0 <= i < |times| => Entry(i))
    }
  }

  predicate NonDecreasing(times: seq<real>) {
    forall i, j :: 0 <= i < j < |times| ==> times[i] <= times[j]
  }

  /** One call: what is left plus what is paid is at most a full bucket, and at most what was there
      plus what was due. */
  lemma AcquireBalance(b: Bucket, config: BucketConfig, now: real, add: nat)
    requires b.tokens <= config.maxTokens
    ensures var (r, verdict) := Acquire(b, config, now, add);
            var paid := if verdict.Granted? then config.cost else 0;
            r.tokens + paid <= config.maxTokens && r.tokens + paid <= b.tokens + add
  {
  }

  lemma DueBound(b: Bucket, config: BucketConfig, now: real)
    requires config.refillRate >= 0.0 && b.lastRefill <= now
    ensures Due(b, config, now) as real <= config.refillRate * now - config.refillRate * b.lastRefill
  {
    MulMonotone(config.refillRate, 0.0, now - b.lastRefill);
    EarnedOver(config.refillRate, b.lastRefill, now);
  }

  lemma CallBalance(r: Run, i: int)
    requires r.Valid() && 0 <= i < |r.times|
    ensures Capped(r.Entry(i), r.config.maxTokens as real) && r.states[i + 1].lastRefill == r.times[i]
    ensures r.Entry(i).balance + r.Entry(i).paid <= (r.states[i].tokens + r.due[i]) as real
  {
    assert r.StepAt(i);
    AcquireBalance(r.states[i], r.config, r.times[i], r.due[i]);
  }

  lemma DueEarned(r: Run, i: int)
    requires r.Valid() && 0 < i < |r.times| && r.states[i].lastRefill == r.times[i - 1]
    ensures r.due[i] as real <= r.earned[i] - r.earned[i - 1]
  {
    assert r.DueAt(i) && r.EarnedAt(i) && r.EarnedAt(i - 1);
    assert r.times[i - 1] <= r.times[i];
    DueBound(r.states[i], r.config, r.times[i]);
  }

  lemma CallFollows(r: Run, i: int)
    requires r.Valid() && 0 < i < |r.times|
    ensures Follows(r.Entry(i - 1), r.Entry(i))
  {
    CallBalance(r, i - 1);
    CallBalance(r, i);
    DueEarned(r, i);
  }

  lemma RunConforms(r: Run)
    requires r.Valid()
    ensures Conforms(r.Calls(), r.config.maxTokens as real)
  {
    var calls := r.Calls();
    forall i | 0 <= i < |calls| ensures Capped(calls[i], r.config.maxTokens as real) { CallBalance(r, i); }
    forall i | 0 < i < |calls| ensures Follows(calls[i - 1], calls[i]) { CallFollows(r, i); }
  }

  function Grants(verdicts: seq<Result>): nat {
    if verdicts == [] then 0
    else Grants(verdicts[..|verdicts| - 1]) + if verdicts[|verdicts| - 1].Granted? then 1 else 0
  }

  lemma GrantsSnoc(verdicts: seq<Result>, i: nat, j: nat)
    requires i < j <= |verdicts|
    ensures Grants(verdicts[i..j]) == Grants(verdicts[i..j - 1]) + if verdicts[j - 1].Granted? then 1 else 0
  {
    assert verdicts[i..j][..j - 1 - i] == verdicts[i..j - 1];
  }

  lemma {:induction false} WindowPaid(r: Run, i: nat, j: nat)
    requires r.Sized() && i <= j <= |r.times|
    ensures Paid(r.Calls()[i..j]) == Times(r.config.cost as real, Grants(r.verdicts[i..j]))
    decreases j
  {
    if i < j {
      WindowPaid(r, i, j - 1);
      PaidSnoc(r.Calls(), i, j);
      GrantsSnoc(r.verdicts, i, j);
    }
  }

  lemma WindowEarned(r: Run, i: nat, j: nat)
    requires r.Valid() && i < j <= |r.times|
    ensures r.earned[j - 1] - r.earned[i] == r.config.refillRate * (r.times[j - 1] - r.times[i])
  {
    assert r.EarnedAt(i) && r.EarnedAt(j - 1);
    EarnedOver(r.config.refillRate, r.times[i], r.times[j - 1]);
  }

  lemma WindowTimes(r: Run, i: nat, j: nat)
    requires r.Valid() && i < j <= |r.times|
    ensures Times(r.config.cost as real, Grants(r.verdicts[i..j]))
              <= r.config.maxTokens as real + (r.earned[j - 1] - r.earned[i])
  {
    RunConforms(r);
    WindowBound(r.Calls(), r.config.maxTokens as real, i, j);
    WindowPaid(r, i, j);
  }

  lemma ByProduct(cost: real, n: nat, cap: real, earned: real, rate: real, span: real)
    requires Times(cost, n) <= cap + earned && earned == rate * span
    ensures cost * n as real <= cap + rate * span
  {
    TimesIsProduct(cost, n);
  }

  /** In every window of every run, the cost of the requests granted is at most one full bucket plus
      what the refill rate earns from the first call of the window to its last. */
  lemma WindowConformance(r: Run, i: nat, j: nat)
    requires r.Valid() && i < j <= |r.times|
    ensures r.config.cost as real * Grants(r.verdicts[i..j]) as real
              <= r.config.maxTokens as real + r.config.refillRate * (r.times[j - 1] - r.times[i])
  {
    WindowTimes(r, i, j);
    WindowEarned(r, i, j);
    ByProduct(r.config.cost as real, Grants(r.verdicts[i..j]), r.config.maxTokens as real,
              r.earned[j - 1] - r.earned[i], r.config.refillRate, r.times[j - 1] - r.times[i]);
  }

  // ----- Polling too fast ------------------------------------------------------------------------

  /** The time since the previous call, or since the bucket was set up. */
  function Gap(r: Run, i: int): real
    requires r.Sized() && 0 <= i < |r.times|
  {
    r.times[i] - if i == 0 then r.states[0].lastRefill else r.times[i - 1]
  }

  /** The call comes before a whole token has been earned. */
  predicate Hasty(r: Run, i: int)
    requires r.Sized() && 0 <= i < |r.times|
  {
    BelowOne(Gap(r, i), r.config.refillRate)
  }

  predicate BelowOne(elapsed: real, rate: real) { elapsed * rate < 1.0 }

  /** No whole token is earned exactly as long as the rate times the elapsed time is below one. */
  lemma CreditBelowOne(elapsed: real, rate: real)
    requires elapsed >= 0.0 && rate >= 0.0
    ensures Credit(elapsed, rate) == 0 <==> BelowOne(elapsed, rate)
  {
    MulMonotone(rate, 0.0, elapsed);
    FloorAtLeast(elapsed * rate, 1);
  }

  lemma HastyEarnsNothing(r: Run, i: int)
    requires r.Valid() && 0 <= i < |r.times| && Hasty(r, i)
    ensures r.due[i] == 0
  {
    if i > 0 { CallBalance(r, i - 1); }
    assert r.DueAt(i);
    CreditBelowOne(Gap(r, i), r.config.refillRate);
  }

  lemma MulNext(cost: nat, n: nat)
    ensures cost * (n + 1) == cost * n + cost
  {
  }

  /** Fractions of a token are dropped at every call, so callers that come faster than tokens are earned
      get the tokens that were there at the start and no more, however long they go on. */
  lemma {:induction false} FastPollingStarves(r: Run, j: nat)
    requires r.Valid() && j <= |r.times|
    requires forall i {:trigger Hasty(r, i)} :: 0 <= i < j ==> Hasty(r, i)
    ensures r.states[j].tokens + r.config.cost * Grants(r.verdicts[..j]) == r.states[0].tokens
  {
    if j > 0 {
      FastPollingStarves(r, j - 1);
      assert Hasty(r, j - 1);
      HastyEarnsNothing(r, j - 1);
      assert r.StepAt(j - 1);
      assert r.verdicts[..j][..j - 1] == r.verdicts[..j - 1];
      MulNext(r.config.cost, Grants(r.verdicts[..j - 1]));
    }
  }

  // ----- The reported delay ----------------------------------------------------------------------

  lemma FloorAtLeast(x: real, n: int)
    ensures x.Floor >= n <==> x >= n as real
  {
  }

  lemma MulStrict(rate: real, a: real, b: real)
    requires rate > 0.0 && a < b
    ensures rate * a < rate * b
  {
  }

  lemma Scaled(d: real, rate: real, need: real, t: real)
    requires rate > 0.0 && rate * need == d
    ensures t * rate >= d <==> need <= t
  {
    if need <= t { MulMonotone(rate, need, t); } else { MulStrict(rate, t, need); }
  }

  /** `wait` whole seconds, the least that cover `deficit` unless it does not fit 64 bits. */
  lemma EnoughAfterWaiting(deficit: nat, rate: real, c: int, wait: nat)
    requires deficit > 0 && rate > 0.0
    requires c == Ceil(deficit as real / rate) && wait == Saturate(c)
    ensures wait as real * rate >= deficit as real <==> deficit as real <= LAST_U64 * rate
  {
    var need := deficit as real / rate;
    assert rate * need == deficit as real;
    Scaled(deficit as real, rate, need, wait as real);
    Scaled(deficit as real, rate, need, LAST_U64);
    assert need <= c as real < need + 1.0;
    assert c >= 1 && wait as real <= LAST_U64;
  }

  lemma NoCredit(elapsed: real, rate: real)
    requires elapsed >= 0.0 && rate <= 0.0
    ensures Credit(elapsed, rate) == 0
  {
    MulMonotone(-rate, 0.0, elapsed);
  }

  lemma CreditCovers(elapsed: real, rate: real, deficit: nat)
    requires 0 < deficit < U64
    ensures Credit(elapsed, rate) >= deficit <==> elapsed * rate >= deficit as real
  {
    FloorAtLeast(elapsed * rate, deficit);
  }

  lemma CreditReaches(tokens: nat, config: BucketConfig)
    requires tokens < config.cost < U64
    ensures var wait := RetryAfter(tokens, config) as real;
            tokens + Credit(wait, config.refillRate) >= config.cost <==>
              config.refillRate > 0.0 && (config.cost - tokens) as real <= LAST_U64 * config.refillRate
  {
    var deficit, rate := config.cost - tokens, config.refillRate;
    var wait := RetryAfter(tokens, config);
    if rate > 0.0 {
      EnoughAfterWaiting(deficit, rate, Ceil(deficit as real / rate), wait);
      CreditCovers(wait as real, rate, deficit);
    } else {
      NoCredit(wait as real, rate);
    }
  }

  /** Adding to a balance below `cost` reaches `cost` only through a sum that does not wrap. */
  lemma RefilledReaches(tokens: nat, add: nat, max: nat, cost: nat)
    requires tokens <= max && tokens < cost && add < U64
    ensures Refilled(tokens, add, max) >= cost <==> cost <= max && tokens + add >= cost && tokens + add < U64
  {
  }

  /** A rejected caller that retries, undisturbed, after exactly the reported delay is admitted if and
      only if a request can ever fit, the bucket refills, and neither the delay nor the token sum
      overflows 64 bits. */
  lemma RetrySucceedsIff(b: Bucket, config: BucketConfig, now: real, add: nat, r: Bucket, wait: nat)
    requires b.tokens <= config.maxTokens < U64 && config.cost < U64
    requires Acquire(b, config, now, add) == (r, RateLimited(wait))
    ensures var later := now + wait as real;
            Acquire(r, config, later, Due(r, config, later)).1.Granted? <==>
              && config.cost <= config.maxTokens
              && config.refillRate > 0.0
              && (config.cost - r.tokens) as real <= LAST_U64 * config.refillRate
              && r.tokens + Credit(wait as real, config.refillRate) < U64
  {
    assert r.tokens < config.cost && wait == RetryAfter(r.tokens, config) && r.lastRefill == now;
    assert now + wait as real - r.lastRefill == wait as real;
    RefilledReaches(r.tokens, Credit(wait as real, config.refillRate), config.maxTokens, config.cost);
    CreditReaches(r.tokens, config);
  }

  lemma RateTimes(rate: real, need: real, t: real)
    requires rate > 0.0 && t < need
    ensures t * rate < rate * need
  {
  }

  /** An earlier whole second does not earn enough. */
  lemma TooEarly(deficit: nat, rate: real, c: int, t: real)
    requires deficit > 0 && rate > 0.0 && c == Ceil(deficit as real / rate) && t <= (c - 1) as real
    ensures t * rate < deficit as real
  {
    var need := deficit as real / rate;
    assert rate * need == deficit as real;
    RateTimes(rate, need, t);
  }

  lemma CreditTooEarly(tokens: nat, config: BucketConfig, t: real)
    requires tokens < config.cost < U64 && 0.0 <= t <= RetryAfter(tokens, config) as real - 1.0
    ensures tokens + Credit(t, config.refillRate) < config.cost
  {
    var deficit, rate := config.cost - tokens, config.refillRate;
    if rate > 0.0 {
      TooEarly(deficit, rate, Ceil(deficit as real / rate), t);
      CreditCovers(t, rate, deficit);
    } else {
      NoCredit(t, rate);
    }
  }

  /** The reported delay is the least in whole seconds: a caller that retries, undisturbed, a second earlier or
      more is rejected again. */
  lemma RetryIsLeast(b: Bucket, config: BucketConfig, now: real, add: nat, r: Bucket, wait: nat, t: real)
    requires b.tokens <= config.maxTokens < U64 && config.cost < U64
    requires Acquire(b, config, now, add) == (r, RateLimited(wait)) && 0.0 <= t <= wait as real - 1.0
    ensures Acquire(r, config, now + t, Due(r, config, now + t)).1.RateLimited?
  {
    assert r.tokens < config.cost && wait == RetryAfter(r.tokens, config) && r.lastRefill == now;
    assert now + t - r.lastRefill == t;
    CreditTooEarly(r.tokens, config, t);
  }
}
