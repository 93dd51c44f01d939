# Serein: verified models of voting, admission control and stateful caches

Serein is a gateway that asks several language-model providers the same question, votes on the answers
and wraps the calls in admission control. This project models the parts of it that are small state
machines or algorithms, and proves what they guarantee over every input, every run or every interleaving.
`dafny verify dfyconfig.toml` checks everything.

| file | models |
|---|---|
| `Basics.dfy`, `Decimals.dfy` | shared definitions |
| `PiiProtector.dfy`, `PiiCounter.dfy` | reversible masking of personal data |
| `Json.dfy`, `JsonNumbers.dfy`, `CanonicalJson.dfy`, `CanonicalKey.dfy` | JSON trees and their numbers, recursive key sorting, the compact text, fences and voting keys |
| `TmrConsensus.dfy`, `TmrOrchestrator.dfy` | streaming and batch voting, the orchestrator's quorum decision |
| `FuzzyArbitration.dfy`, `FuzzyMeaning.dfy`, `FuzzyTransitivity.dfy` | the second voter, with numeric tolerance |
| `Ledger.dfy`, `TokenBucket.dfy`, `LockFreeBucket.dfy`, `LockFreeBursts.dfy`, `LockFreeThreads.dfy` | the integer token bucket, one call at a time and interleaved |
| `ApiRateLimiter.dfy`, `TenantEviction.dfy`, `TenantWindow.dfy`, `TenantOverdraft.dfy` | the tenant and global limiter with stale-tenant eviction |
| `CircuitBreaker.dfy`, `BreakerAdmission.dfy` | the three-state breaker with its probe guard |
| `NonceCache.dfy`, `NonceSchedule.dfy`, `NonceFlood.dfy` | replay detection with expiry and forced eviction |
| `SingleFlight.dfy`, `SingleFlightReplies.dfy` | request deduplication under interleaving and cancellation |
| `VirtualFs.dfy` | path normalisation and the quota-keeping file map |
| `FlightRecorder.dfy` | the batching audit writer |
| `ResourceMonitor.dfy` | per-address request windows |
| `FuelInterlock.dfy` | the two fuel meters and the gateway that feeds them |

Conventions. Time is a real number of seconds on one non-decreasing clock and each call reads it once;
the lock-free bucket reads it wherever the code does. Floating-point quantities are reals. Unsigned 64-bit
counters that are carried over wrap explicitly. Objects that the code updates in place are classes whose
methods are proved against functions or relations on values; the properties are then lemmas about those.
Protocols with several threads or tasks are step machines.

## What the code does that its comments do not say

- A full nonce cache keeps its newest quarter; the comment says it evicts a quarter
  (crates/core/src/security/hmac_auth.rs:82-86 against 104-109). Hence 25,000 in `NonceCache.ReplayIsCaught`,
  which is exact (`NonceFlood.CatchesIff`). Since every 64th insertion sweeps, an eviction needs nearly a full map of
  requests within the time to live; up to that density nothing is missed (`NonceFlood.FaithfulIff`).
- A sweep of stale tenants hands them full buckets again, so a tenant can exceed its capacity and rate unless the
  sweep waits long enough or the global bucket stands in the way
  (crates/traffic-control/src/rate_limiter.rs:464-477, `TenantOverdraft.TenantWindowIff`).
- A tenant token is spent even if the global layer then refuses, and a tenant that finds no room gets the
  error of the global layer (crates/traffic-control/src/rate_limiter.rs:379-381 against 386-455).
- The request that moves a breaker from Open to HalfOpen takes no probe slot
  (crates/traffic-control/src/circuit_breaker.rs:138-146). So an episode admits up to twice the configured
  number of requests (`CircuitBreaker.EpisodeBoundIsTight`). With two or more required successes a lone prober
  stays locked out for good, unless an earlier episode happens to have left the probe counter between one and
  the limit (`CircuitBreaker.LoneProberRecoversIff`); what an episode leaves behind is told by
  `BreakerAdmission.EndOfEpisode` and `OpenGivesBack`.
- The integer bucket drops fractions of a token at every call: callers faster than the refill rate starve
  (`TokenBucket.FastPollingStarves`). Under threads the window bound of the sequential bucket fails for every
  configuration in which requests are ever granted and refilled (`LockFreeBursts.AlwaysSequentialIff`), up to
  three full buckets at once (`LockFreeBursts.ThreeBucketsInNoTime`), but by no more than one request per thread
  (`LockFreeThreads.ThreadWindow`).
- Two leaders for one singleflight key are reachable, the first to finish cancels the other's watchers, and
  a watcher can miss its wake-up (`SingleFlight.TwoLeaders`, `BystanderCancelled`, `MissedWakeUp`). One leader
  per key is exactly what an insert that checks again would give (`SingleFlight.OneLeaderIff`).
- The two fuel meters disagree for quotas that are no multiple of ten or whose ninefold overflows 64 bits
  (`FuelInterlock.MetersAgreeIff`); the quota in use, ten thousand million, is not one of these.
- A refusal by the global layer reports the capacity of a tenant, and always zero tokens left
  (crates/traffic-control/src/rate_limiter.rs:444-455, `ApiRateLimiter.AnswerTells`).
- With four or more providers and the default threshold of two, streaming and batch voting can name
  different winners (`TmrConsensus.SameWinnerIffMajority`).
- The comment on `arbitrate` speaks of payload equality; the code compares with tolerance
  (crates/traffic-control/src/lib.rs:113-124 against 146-171).

## Model

| member | source | states |
|---|---|---|
| `PiiProtector.PlaceholderInjective` | crates/worker/src/lib.rs:67-76 | two placeholders are equal only if both type and index are: decimal rendering is injective and the tags cannot be confused |
| `PiiProtector.AllocateDistinct` | crates/worker/src/lib.rs:401-415 | one call hands out pairwise different placeholders, whatever other calls do to the shared wrapping counter meanwhile, unless it makes a full 64-bit turn |
| `PiiCounter.PlaceholderAt` | crates/worker/src/lib.rs:401-415 | the n-th placeholder names the type of the n-th match, and its index is what the wrapping counter shows after all increments before it, of this call and of others |
| `PiiCounter.CallsApart` | crates/worker/src/lib.rs:397-417 | successive calls share no placeholder, whatever increments come between, unless the counter makes a full 64-bit turn |
| `PiiProtector.PIIProtector.Mask` | crates/worker/src/lib.rs:397-417 | the loop yields the text with every match replaced, the map from placeholder to original, and the advanced counter |
| `PiiProtector.PIIProtector.Restore` | crates/worker/src/lib.rs:426-432 | the result is successive substitution along some enumeration of the map, each key exactly once; the order is the hash map's |
| `PiiProtector.RoundTrip` | crates/worker/src/lib.rs:397-432 | restoring the masked text gives back the original for every iteration order, if no allocated placeholder occurs in the text |
| `PiiProtector.ForgedTextIsLost` | crates/worker/src/lib.rs:397-432 | if an allocated placeholder does stand in a literal part, the restored text has strictly fewer opening brackets than the original, in every order |
| `PiiProtector.OccursInLiteral` | crates/worker/src/lib.rs:32-37 | no match of the pattern lies inside an occurrence of a placeholder, so every occurrence lies in a literal part |
| `PiiProtector.RoundTripIff` | crates/worker/src/lib.rs:397-432 | masking and restoring undo each other exactly when the text contains none of the placeholders the call allocates |
| `PiiProtector.ForgedStart` | crates/worker/src/lib.rs:397-432 | a family of texts that do not survive: those that spell the next placeholder before their first match |
| `CanonicalJson.SortKeepsMeaning` | crates/consensus/src/tmr_consensus.rs:113-132 | sorting changes no lookup at any depth |
| `CanonicalJson.SameSortIffSameMeaning` | crates/consensus/src/tmr_consensus.rs:113-132 | two trees sort to the same tree exactly when they are equal with objects read as maps and arrays as lists |
| `CanonicalJson.SortFixesExactlyCanonical` | crates/consensus/src/tmr_consensus.rs:113-132 | sorting is idempotent; its fixed points are exactly the trees with strictly increasing keys everywhere |
| `JsonNumbers.SameValueSameFloat` | crates/consensus/src/tmr_consensus.rs:147-155 | each floating-point value is one number of the model, so that telling numbers apart is telling values apart |
| `JsonNumbers.RenderIsFaithful` | crates/consensus/src/tmr_consensus.rs:154-155 | renderings that tell any two numbers apart with numeric characters only exist, so the hypothesis of the rows below can be met |
| `CanonicalJson.EmitDecodes` | crates/consensus/src/tmr_consensus.rs:154-155 | compact serialisation is uniquely decodable in any context: strings, numbers and brackets never run into each other |
| `CanonicalJson.SameTextIffSameMeaning` | crates/consensus/src/tmr_consensus.rs:145-159 | the hashed texts of two trees are equal exactly when the trees mean the same |
| `CanonicalKey.StripUnwraps` | crates/consensus/src/tmr_consensus.rs:167-182 | padded copies, tagged and untagged fences, fences followed by more text and fences never closed all strip to the same text, for every body that starts with a visible character and cannot be mistaken for a fence or tag |
| `CanonicalKey.WrappingsShareKey` | crates/consensus/src/tmr_consensus.rs:185-201 | all such copies of one body get the same key, be it JSON, broken JSON or plain text |
| `CanonicalKey.SameKeyIffSameReading` | crates/consensus/src/tmr_consensus.rs:145-201 | two answers, however wrapped, share a key exactly when both are JSON and mean the same, or neither is and their texts are equal, unless a hash collides on them; a text never shares a key with JSON |
| `CanonicalKey.SameKeyIffSameText` | crates/consensus/src/tmr_consensus.rs:145-201 | the same for any two raw answers, by the texts they strip down to |
| `TmrConsensus.TallyCounts` | crates/consensus/src/tmr_consensus.rs:468-480 | the vote map counts exactly the successful answers under each key, with the latest content and all providers |
| `TmrConsensus.TmrConsensusEngine.UpdateNodeHealth` | crates/consensus/src/tmr_consensus.rs:392-402 | a tripped node leaves the available ones, any other health puts it there, and no other node is affected |
| `TmrConsensus.TmrConsensusEngine.Query` | crates/consensus/src/tmr_consensus.rs:424-529 | the streaming loop returns the verdict of a key at the first arrival where some key qualifies, or no consensus if none ever does; agreement is announced exactly when there are enough votes in all arrivals, as in `QueryDecides` |
| `TmrConsensus.TmrConsensusEngine.Evaluate` | crates/consensus/src/tmr_consensus.rs:538-612 | the batch loop returns the verdict of a key with most votes if it qualifies, else no consensus; which is the case exactly as in `EvaluateDecides` |
| `TmrConsensus.QueryDecides` | crates/consensus/src/tmr_consensus.rs:468-529 | the streaming form announces agreement exactly when some non-empty key stands in `minAgreement` successful answers (strict, three nodes or more), in as many as there are nodes (strict, fewer), or in one (otherwise) |
| `TmrConsensus.EvaluateDecides` | crates/consensus/src/tmr_consensus.rs:553-612 | so does the batch form |
| `TmrConsensus.LatencyOfSlowest` | crates/consensus/src/tmr_consensus.rs:553-571 | the reported batch latency is that of the slowest answer |
| `TmrConsensus.StreamingSucceedsIffBatch` | crates/consensus/src/tmr_consensus.rs:468-612 | for every arrival order the streaming form succeeds exactly when the batch form does on the same answers |
| `TmrConsensus.StreamingAgreesWithBatch` | crates/consensus/src/tmr_consensus.rs:468-612 | with a majority threshold both name the same key and the streamed winners are among the batch winners |
| `TmrConsensus.SplitVoteDisagrees` | crates/consensus/src/tmr_consensus.rs:468-612 | at or below half of the answers there is a vote on which the two forms name different keys |
| `TmrConsensus.SameWinnerIffMajority` | crates/consensus/src/tmr_consensus.rs:468-612 | the two forms name the same key on every vote exactly when twice the threshold exceeds the number of nodes |
| `TmrConsensus.VerdictContent` | crates/consensus/src/tmr_consensus.rs:468-612 | the returned content was sent by a provider whose answer carries the winning key |
| `TmrConsensus.FaultMasking` | crates/consensus/src/tmr_consensus.rs:553-605 | enough equal answers win whatever the fewer remaining ones say, in any order |
| `TmrOrchestrator.Orchestrator.Decide` | crates/llm-router/src/coordinator.rs:1232-1318 | too few non-empty answers or no engine verdict means the fallback model, otherwise the engine's verdict; consensus is announced exactly as in `DecisionAnnounces` |
| `TmrOrchestrator.DecisionAnnounces` | crates/llm-router/src/coordinator.rs:1232-1318 | consensus is announced exactly when `minAgreement` adapters gave a non-empty answer and enough answers, for the number of distinct ids, carry one key |
| `TmrOrchestrator.DistinctCount` | crates/llm-router/src/coordinator.rs:910-923 | pairwise different provider ids give as many engine nodes as adapters |
| `TmrOrchestrator.StrictConsensusIsBacked` | crates/llm-router/src/coordinator.rs:1232-1309 | in strict mode with distinct provider ids every announced consensus is backed by two adapters with one key |
| `TmrOrchestrator.UnbackedConsensus` | crates/llm-router/src/coordinator.rs:1232-1309 | in lenient mode, or if all adapters share one id, there are answers on which an opinion nobody shares is announced |
| `TmrOrchestrator.BackedIffThreshold` | crates/llm-router/src/coordinator.rs:1232-1309 | every announced consensus is backed by two adapters exactly in strict mode with at least two distinct ids |
| `FuzzyArbitration.FuzzySymmetric` | crates/traffic-control/src/lib.rs:207-250 | fuzzy equality is symmetric; for objects by counting the keys |
| `FuzzyArbitration.SameMeaningAgrees` | crates/traffic-control/src/lib.rs:207-250 | trees that mean the same are fuzzily equal; in particular the relation is reflexive |
| `FuzzyArbitration.CanonicalVotersAgree` | crates/traffic-control/src/lib.rs:207-250 | answers that the canonical voter puts into one class agree for this voter too |
| `FuzzyArbitration.CloseIsRelativeError` | crates/traffic-control/src/lib.rs:209-224 | the tolerance is the relative error compared with FUZZY_DELTA, with the absolute error at zero |
| `FuzzyMeaning.AgreeIff` | crates/traffic-control/src/lib.rs:207-250 | two trees agree exactly when they mean the same once numbers are erased and the numbers at each place of both are close |
| `FuzzyMeaning.AgreeIffSameMeaning` | crates/traffic-control/src/lib.rs:207-250 | if one of them holds no number, they agree exactly when they mean the same |
| `FuzzyMeaning.AgreementIffSameMeaning` | crates/traffic-control/src/lib.rs:146-171 | among answers without numbers, plain texts among them, agreement is found exactly when two mean the same |
| `FuzzyTransitivity.ChainBreaks` | crates/traffic-control/src/lib.rs:205-250 | from every tree that holds a number other than zero a chain of two agreements leads to a tree it does not agree with |
| `FuzzyTransitivity.TransitiveIff` | crates/traffic-control/src/lib.rs:205-250 | fuzzy equality is transitive from a tree exactly when the tree holds no number other than zero |
| `FuzzyArbitration.HasConsensus` | crates/traffic-control/src/lib.rs:146-171 | true exactly when some two results agree |
| `FuzzyArbitration.Arbitrate` | crates/traffic-control/src/lib.rs:120-144 | the first result that agrees with an earlier one; else the first result; an error exactly when every backend failed |
| `FuzzyArbitration.OrderIndependent` | crates/traffic-control/src/lib.rs:120-171 | whether agreement is found does not depend on the order of arrival |
| `Ledger.WindowBound` | crates/traffic-control/src/rate_limiter.rs:70-136 | capped balances that grow no faster than the rate bound what any window of calls can pay |
| `TokenBucket.Credit` | crates/traffic-control/src/rate_limiter.rs:118-119 | whole tokens earned: never more than rate times elapsed time, and within 64 bits |
| `TokenBucket.Refilled` | crates/traffic-control/src/rate_limiter.rs:121-133 | never above the bucket nor above the sum; exactly the capped sum when it does not wrap |
| `TokenBucket.TokenBucket.RefillTokens` | crates/traffic-control/src/rate_limiter.rs:113-136 | adds the whole tokens due, capped, with a wrapping sum, and restarts the clock |
| `TokenBucket.TokenBucket.TryAcquire` | crates/traffic-control/src/rate_limiter.rs:70-110 | refill, then grant and pay the cost, or refuse with the estimated delay |
| `TokenBucket.WindowConformance` | crates/traffic-control/src/rate_limiter.rs:70-136 | in every window of every run, cost times grants is at most one full bucket plus rate times the length of the window |
| `TokenBucket.FastPollingStarves` | crates/traffic-control/src/rate_limiter.rs:113-136 | as long as no gap between calls earns a whole token, all grants together are paid from the initial balance |
| `TokenBucket.RetrySucceedsIff` | crates/traffic-control/src/rate_limiter.rs:70-147 | an undisturbed retry after the reported delay is granted exactly when a request can fit, the bucket refills, and neither the delay nor the sum overflows 64 bits |
| `TokenBucket.RetryIsLeast` | crates/traffic-control/src/rate_limiter.rs:70-147 | the reported delay is the least in whole seconds: an undisturbed retry a second or more before it is refused again |
| `LockFreeBucket.Conservation` | crates/traffic-control/src/rate_limiter.rs:70-136 | at the granularity of loads and compare-and-swap attempts, for any threads: tokens stay within the bucket, cost times grants plus tokens equals the initial balance plus credit, credit is at most rate times elapsed time, one refiller at a time |
| `LockFreeBucket.InterleavedWindow` | crates/traffic-control/src/rate_limiter.rs:70-136 | every stretch of every interleaving grants at most three full buckets plus the refill of the window |
| `LockFreeBucket.OpeningBound` | crates/traffic-control/src/rate_limiter.rs:70-136 | from any reachable state a stretch grants at most the tokens in the counter, the credit computed, and what the time since the last stamp earns |
| `LockFreeBucket.OneBucketSuffices` | crates/traffic-control/src/rate_limiter.rs:70-136 | from states where these make up at most one bucket, the sequential window bound holds |
| `LockFreeBursts.OneTooMany` | crates/traffic-control/src/rate_limiter.rs:70-136 | for every refilling configuration with a request that fits, a reachable window of length zero that grants more than a full bucket |
| `LockFreeBursts.AlwaysSequentialIff` | crates/traffic-control/src/rate_limiter.rs:70-136 | the sequential window bound holds in all interleavings exactly when the bucket does not refill, requests are free, or no request fits |
| `LockFreeBursts.ThreeBucketsInNoTime` | crates/traffic-control/src/rate_limiter.rs:70-136 | for every refilling bucket that is a whole number of requests, a reachable window of length zero that grants three full buckets |
| `LockFreeThreads.ThreadWindow` | crates/traffic-control/src/rate_limiter.rs:70-136 | every stretch of every interleaving grants at most one full bucket, one request for each thread that takes part, and the refill of the window |
| `LockFreeThreads.ThreadBoundIsReached` | crates/traffic-control/src/rate_limiter.rs:70-136 | for every refilling bucket of a whole number of requests and up to that many threads, a reachable window of length zero that grants exactly that |
| `ApiRateLimiter.ApiRateLimiter.AcquireApiToken` | crates/traffic-control/src/rate_limiter.rs:386-458 | room check, tenant layer, global layer, with every error and every change of state |
| `ApiRateLimiter.AnswerTells` | crates/traffic-control/src/rate_limiter.rs:386-458 | granted exactly if there is room and both layers hold a token; which refusal comes when and what it reports, always zero tokens left from the global layer |
| `ApiRateLimiter.ApiRateLimiter.TryAcquire` | crates/traffic-control/src/rate_limiter.rs:296-311 | refill up to capacity, then take one token if there is one |
| `ApiRateLimiter.ApiRateLimiter.EvictStaleTenants` | crates/traffic-control/src/rate_limiter.rs:464-477 | keeps exactly the tenants used less than the maximum age ago and reports how many went |
| `ApiRateLimiter.EvictionIsInvisible` | crates/traffic-control/src/rate_limiter.rs:386-477 | if every sweep waits as long as an empty tenant bucket takes to fill and the tenants fit, every request of every run is answered as by a limiter that never evicts |
| `TenantEviction.InvisibleIffPatient` | crates/traffic-control/src/rate_limiter.rs:386-477 | sweeps of a given age are invisible on all runs whose tenants fit exactly when that age refills a tenant bucket |
| `TenantEviction.ImpatientShows` | crates/traffic-control/src/rate_limiter.rs:386-477 | the run that tells the two apart when the age is too short, whatever the global bucket |
| `TenantOverdraft.ImpatientAdmitsMore` | crates/traffic-control/src/rate_limiter.rs:386-477 | whenever sweeps are impatient and the global bucket is not tight, some run is granted a request that a limiter without sweeps refuses |
| `TenantEviction.CrowdShows` | crates/traffic-control/src/rate_limiter.rs:387-400 | with one tenant more than fits, a sweep of any age changes an answer, for every limit |
| `TenantEviction.InvisibleIffTheyFit` | crates/traffic-control/src/rate_limiter.rs:386-477 | patient sweeps are invisible up to a number of tenants exactly when that many fit |
| `ApiRateLimiter.LimiterWindow` | crates/traffic-control/src/rate_limiter.rs:296-311 | in every window of every run, grants are at most capacity plus rate times length, for the global bucket always and for each tenant under patient sweeps |
| `TenantWindow.ShortIsBounded` | crates/traffic-control/src/rate_limiter.rs:296-477 | in windows shorter than the age of the sweeps a tenant keeps to its capacity plus rate times length, patient or not |
| `TenantWindow.BoundedIf` | crates/traffic-control/src/rate_limiter.rs:296-477 | no tenant exceeds its bound in any window of any run if sweeps are patient, or the global bucket is tight: it cannot serve a full tenant bucket and the least whole number of tokens not earned within the age, before the tenant has earned them |
| `TenantOverdraft.TenantWindowIff` | crates/traffic-control/src/rate_limiter.rs:296-477 | the window bound of a tenant holds in all runs with sweeps of one age exactly when that age is patient, the global bucket is tight, or no tenant is ever admitted; for all rates and capacities |
| `TenantOverdraft.TightAtEqualRates` | crates/traffic-control/src/rate_limiter.rs:345-374 | if tenant and global bucket refill at the same rate, tight means a global bucket no larger than a tenant's |
| `CircuitBreaker.CircuitBreaker.TransitionTo` | crates/traffic-control/src/circuit_breaker.rs:242-257 | which counters each new state resets |
| `CircuitBreaker.CircuitBreaker.AllowRequest` | crates/traffic-control/src/circuit_breaker.rs:127-167 | admission per state, including the slot taken and given back |
| `CircuitBreaker.CircuitBreaker.RecordSuccess` | crates/traffic-control/src/circuit_breaker.rs:170-196 | resets failures; in HalfOpen frees a slot and may close |
| `CircuitBreaker.CircuitBreaker.RecordFailure` | crates/traffic-control/src/circuit_breaker.rs:202-239 | counts, stamps and opens at the threshold or out of HalfOpen |
| `CircuitBreaker.ProbeGuard.MarkSuccess` | crates/traffic-control/src/circuit_breaker.rs:316-319 | resolves the guard and records exactly one success |
| `CircuitBreaker.ProbeGuard.MarkFailure` | crates/traffic-control/src/circuit_breaker.rs:323-326 | resolves the guard and records exactly one failure |
| `CircuitBreaker.ProbeGuard.Drop` | crates/traffic-control/src/circuit_breaker.rs:329-344 | an unresolved guard gives back a slot if there is one and records a failure |
| `CircuitBreaker.ClosedMeansHealthy` | crates/traffic-control/src/circuit_breaker.rs:170-239 | in every run, Closed has fewer than threshold failures since the last success |
| `CircuitBreaker.TripsExactlyAtThreshold` | crates/traffic-control/src/circuit_breaker.rs:202-239 | Closed is left exactly by the failure that completes the threshold, and only to Open |
| `CircuitBreaker.OpenHoldsOff` | crates/traffic-control/src/circuit_breaker.rs:127-167 | after a failure at t leaves it Open, it stays Open and admits nothing before t plus the open duration |
| `CircuitBreaker.EpisodeBound` | crates/traffic-control/src/circuit_breaker.rs:127-196 | a HalfOpen episode has admitted at most one more than the limit plus its successes so far, and at most twice the limit, whatever wrapped probe counter it inherits |
| `CircuitBreaker.EpisodeBoundIsTight` | crates/traffic-control/src/circuit_breaker.rs:127-196 | for every configuration some run admits twice the limit in one episode |
| `CircuitBreaker.ClosedOnlyByProving` | crates/traffic-control/src/circuit_breaker.rs:170-239 | Closed is re-entered only at the end of one unbroken HalfOpen episode with exactly the required successes and no failure |
| `CircuitBreaker.LoneProberRecoversIff` | crates/traffic-control/src/circuit_breaker.rs:127-196 | a single caller whose probes succeed and who asks often enough closes the circuit exactly when at most one success is required or the inherited probe counter lies between one and the limit |
| `CircuitBreaker.BothCountersOccur` | crates/traffic-control/src/circuit_breaker.rs:127-239 | for every configuration some run opens the circuit with probe counter zero and later with probe counter one |
| `BreakerAdmission.NeverTrippedIff` | crates/traffic-control/src/circuit_breaker.rs:127-239 | in every run, the circuit has been Closed throughout exactly if no streak of failures has reached the threshold |
| `BreakerAdmission.HealthyAdmits` | crates/traffic-control/src/circuit_breaker.rs:127-167 | ... and until then every request is admitted |
| `BreakerAdmission.AdmittedIff` | crates/traffic-control/src/circuit_breaker.rs:127-167 | in every run a request is admitted in Closed always, in Open exactly once the last failure of the run is as old as the open duration, in HalfOpen exactly while the slots counted from the events of the episode are below the limit |
| `BreakerAdmission.EndOfEpisode` | crates/traffic-control/src/circuit_breaker.rs:202-344 | the failure that ends an episode leaves Open and exactly this many slots in use: less one for a dropped guard, and less one if the streak does not trip the circuit |
| `BreakerAdmission.OpenGivesBack` | crates/traffic-control/src/circuit_breaker.rs:202-344 | while Open, only guards dropped late give slots back, down to zero: what the next episode inherits |
| `NonceCache.NonceCacheInner.CheckAndInsert` | crates/core/src/security/hmac_auth.rs:87-113 | rejects a live nonce; otherwise sweeps on every 64th insertion, evicts when full, and inserts |
| `NonceCache.SkipOldest` | crates/core/src/security/hmac_auth.rs:104-109 | what is kept has the right size and nothing dropped is younger than anything kept |
| `NonceCache.BoundedMemory` | crates/core/src/security/hmac_auth.rs:104-111 | the map never exceeds 100,000 entries, in any run |
| `NonceCache.NoFalseReplay` | crates/core/src/security/hmac_auth.rs:91-95 | a rejected nonce was accepted less than 300 seconds earlier |
| `NonceCache.ReplayIsCaught` | crates/core/src/security/hmac_auth.rs:87-113 | an accepted nonce is rejected for 300 seconds unless more than 25,000 other nonces were accepted in between, counting those of the same instant |
| `NonceFlood.ReplayGetsThrough` | crates/core/src/security/hmac_auth.rs:87-113 | a run on the code's own cleanup schedule in which, after 25,001 other nonces and within 300 seconds, the replay is accepted; requests less than 300 seconds apart are at most 99,937 requests apart in it |
| `NonceFlood.CatchesIff` | crates/core/src/security/hmac_auth.rs:87-113 | on the code's schedule every replay with at most n other accepted nonces in between is rejected exactly when n is at most 25,000 |
| `NonceCache.RefinesHistory` | crates/core/src/security/hmac_auth.rs:87-113 | while at most 25,000 requests lie between any two less than 300 seconds apart, every answer equals that of a plain history of the last 300 seconds, whatever the sweeping schedule: cleanup is invisible |
| `NonceSchedule.NoEviction` | crates/core/src/security/hmac_auth.rs:97-111 | on the code's schedule and at the density below, an accepted request evicts nothing |
| `NonceSchedule.SustainedIsHistory` | crates/core/src/security/hmac_auth.rs:87-113 | on the code's schedule the answers equal the plain history as long as requests less than 300 seconds apart are at most 99,936 requests apart |
| `NonceFlood.FaithfulIff` | crates/core/src/security/hmac_auth.rs:87-113 | ... and 99,936 is exact: the answers equal the plain history in all runs of a given density exactly up to it |
| `SingleFlight.InvariantHolds` | crates/llm-router/src/coordinator.rs:742-882 | over every interleaving: entries, calls and map stay consistent |
| `SingleFlight.MappedIsLive` | crates/llm-router/src/coordinator.rs:742-763 | every entry in the map belongs to a call for that key that is still running |
| `SingleFlight.NoLeftovers` | crates/llm-router/src/coordinator.rs:742-763 | when no call runs the map is empty, whatever was cancelled or timed out |
| `SingleFlight.AnswersFitTheKey` | crates/llm-router/src/coordinator.rs:797-882 | a non-default answer for a key was produced by a dispatch for that key |
| `SingleFlightReplies.LeaderAnswersWithIt` | crates/llm-router/src/coordinator.rs:802-882 | in every run a leader that has produced a reply ends with that very reply, and its entry holds it |
| `SingleFlightReplies.JoinerGetsTheReply` | crates/llm-router/src/coordinator.rs:820-862 | in every run a call that joins an entry and neither expires nor is cancelled ends with the reply of that entry, or with the empty default if the entry was cancelled |
| `SingleFlightReplies.EveryoneGetsTheReply` | crates/llm-router/src/coordinator.rs:797-882 | if no insert overwrites an entry, such a call ends with the very reply its leader answers with, and with the empty default only if the leader was cancelled |
| `SingleFlight.WakeUpIsDueIff` | crates/llm-router/src/coordinator.rs:820-862 | a waiter is due to wake exactly when its entry was settled after it registered |
| `SingleFlight.OneLeaderIff` | crates/llm-router/src/coordinator.rs:802-874 | in a run at most one call at a time dispatches for any key exactly if every insert still finds its key absent |
| `SingleFlight.CancelledByOwnLeader` | crates/llm-router/src/coordinator.rs:742-763 | in such runs an entry is cancelled only because its own leader was |
| `SingleFlight.LateNeverWakes` | crates/llm-router/src/coordinator.rs:820-862 | ... and a watcher that registers after its entry was settled is never due to wake |
| `SingleFlight.TwoLeaders` | crates/llm-router/src/coordinator.rs:802-874 | otherwise two leaders for one key are reachable |
| `SingleFlight.OverwrittenReachable` | crates/llm-router/src/coordinator.rs:742-763 | for every key a run leads to a leader whose entry was overwritten and who is about to clean up |
| `SingleFlight.BystanderCancelled` | crates/llm-router/src/coordinator.rs:742-763 | from every such state the clean-up cancels the entry of the other leader, which is still running |
| `SingleFlight.GapReachable` | crates/llm-router/src/coordinator.rs:820-862 | for every key and reply a run leads to a leader with its reply and a watcher between its check and its registration |
| `SingleFlight.MissedWakeUp` | crates/llm-router/src/coordinator.rs:820-862 | from every such state, publishing first leaves the watcher only the timeout |
| `VirtualFs.NormalizePathSegments` | crates/sandbox-guard/src/wasi_virt.rs:498-510 | the stack loop computes the walk from the sandbox root |
| `VirtualFs.RedirectPath` | crates/sandbox-guard/src/wasi_virt.rs:487-491 | the key is the mount point and the resolved segments; leading slashes do not matter |
| `VirtualFs.ResolveClean` | crates/sandbox-guard/src/wasi_virt.rs:498-510 | resolved lists never hold "", "." or ".." |
| `VirtualFs.ResolveJoin` | crates/sandbox-guard/src/wasi_virt.rs:498-510 | a resolved list written as a path resolves to itself |
| `VirtualFs.ParentCancels` | crates/sandbox-guard/src/wasi_virt.rs:498-510 | entering a directory and leaving it again changes nothing about where a path leads |
| `VirtualFs.SameKeyIffSameFile` | crates/sandbox-guard/src/wasi_virt.rs:487-510 | two guest paths share a key exactly when they resolve to the same segments |
| `VirtualFs.Confined` | crates/sandbox-guard/src/wasi_virt.rs:480-491 | every key lies under the mount point and nothing after it climbs out |
| `VirtualFs.VirtualFileSystem.WriteFile` | crates/sandbox-guard/src/wasi_virt.rs:517-601 | the exact verdict and the updated map of resolved lists; bytes used equal the sum of sizes within budget, files within limit; a failure changes no file |
| `VirtualFs.VirtualFileSystem.WriteAt` | crates/sandbox-guard/src/wasi_virt.rs:521-601 | the same once the path is resolved: limits checked in the order of the code, creation time kept on overwrite |
| `VirtualFs.WriteSucceedsIff` | crates/sandbox-guard/src/wasi_virt.rs:517-572 | a write succeeds exactly when the filesystem it leads to keeps within both limits; each error reports the free bytes or the file count and means that its own limit would be passed |
| `VirtualFs.OverwriteSucceeds` | crates/sandbox-guard/src/wasi_virt.rs:541-572 | overwriting a file with no more bytes than it has always succeeds |
| `VirtualFs.VirtualFileSystem.ReadFile` | crates/sandbox-guard/src/wasi_virt.rs:606-617 | the content at the resolved list, or not found |
| `VirtualFs.VirtualFileSystem.DeleteFile` | crates/sandbox-guard/src/wasi_virt.rs:622-637 | removes the resolved list and its bytes, or not found |
| `VirtualFs.OtherOperations` | crates/sandbox-guard/src/wasi_virt.rs:517-637 | any sequence of operations on other resolved paths, successful or not, leaves a file as it is |
| `VirtualFs.WriteThenRead` | crates/sandbox-guard/src/wasi_virt.rs:517-637 | a write succeeds exactly when its result fits; then what was written is read back through any spelling of the path, after any sequence of operations on other files, with its old creation time; otherwise what was there before is read |
| `VirtualFs.DeleteThenRead` | crates/sandbox-guard/src/wasi_virt.rs:606-637 | what was deleted is not found through any spelling of the path, likewise |
| `FlightRecorder.BackgroundWriter` | crates/cache-storage/src/flight_recorder.rs:192-249 | the nested loops play the step machine on every schedule of receive outcomes |
| `FlightRecorder.FifoExactlyOnce` | crates/cache-storage/src/flight_recorder.rs:192-249 | flushed batches followed by the pending one are the records received, in order, each once |
| `FlightRecorder.NothingLost` | crates/cache-storage/src/flight_recorder.rs:199-223 | at exit nothing is pending: all that was received has been flushed |
| `FlightRecorder.BatchBound` | crates/cache-storage/src/flight_recorder.rs:205-230 | no batch exceeds BATCH_SIZE + 1 |
| `FlightRecorder.OversizeBatch` | crates/cache-storage/src/flight_recorder.rs:205-230 | BATCH_SIZE + 1 records in a row make one batch of that size |
| `FlightRecorder.OnlyLastEmpty` | crates/cache-storage/src/flight_recorder.rs:192-249 | no batch is empty but possibly the last one of a writer that was stopped while draining |
| `FlightRecorder.FlushedInTime` | crates/cache-storage/src/flight_recorder.rs:192-249 | everything pending is flushed after a number of receives that depends on the batch and is at most 126 |
| `FlightRecorder.WaitIsLeast` | crates/cache-storage/src/flight_recorder.rs:192-249 | that number is least: from every state some schedule of one receive less flushes nothing |
| `ResourceMonitor.ResourceMonitor.CheckAndRecordRequest` | crates/core/src/security/capabilities.rs:62-86 | prunes ended windows, counts the request and flags it beyond the threshold |
| `ResourceMonitor.NonInterference` | crates/core/src/security/capabilities.rs:62-86 | the answers to an address are those it would get alone, whatever others do and cleanup removes |
| `ResourceMonitor.UnflaggedBound` | crates/core/src/security/capabilities.rs:62-86 | in every half-open interval of one window's length fewer than twice the threshold of one address's requests go unflagged |
| `ResourceMonitor.BoundIsTight` | crates/core/src/security/capabilities.rs:62-86 | for every threshold, window and address some run of the monitor leaves twice the threshold less one of that address's requests unflagged |
| `FuelInterlock.SisInterlock.ConsumeFuel` | crates/core/src/engine/hot_swap.rs:237-254 | the new total, the verdict on it, and the state that is stored |
| `FuelInterlock.FuelMonitor.Consume` | crates/core/src/engine/fuel_monitor.rs:835-875 | the new total and its state; traps exactly in emergency shutdown |
| `FuelInterlock.StateIsUtilization` | crates/core/src/engine/fuel_monitor.rs:880-892 | the whole-number thresholds are those of comparing the utilisation ratio with 1.0, 0.95 and 0.90 |
| `FuelInterlock.VerdictsAgreeIff` | crates/core/src/engine/fuel_monitor.rs:880-892 | for every quota and total: the two verdicts differ exactly from the 64-bit, rounded-down nine tenths up to the true nine tenths, and at nothing of a zero quota |
| `FuelInterlock.MetersAgreeIff` | crates/core/src/engine/hot_swap.rs:237-254 | for every 64-bit quota, with the utilisation ratio exact: fed the same amounts the meters agree throughout exactly when the quota is a positive multiple of ten whose ninefold fits 64 bits |
| `FuelInterlock.OverflowDisagrees` | crates/core/src/engine/hot_swap.rs:237-254 | once the total passes 64 bits the meters can disagree, whatever the quota |
| `FuelInterlock.NeverBack` | crates/core/src/engine/hot_swap.rs:237-268 | for every quota: neither meter moves back without a reset while the total fits 64 bits |
| `FuelInterlock.FuelBounded` | crates/core/src/lib.rs:469-577 | for every positive quota: with at most n requests at a time, total accounted fuel stays below n + 1 quotas in every run |
| `FuelInterlock.GatewayAgrees` | crates/core/src/lib.rs:560-577 | ... and the meters agree throughout if nine tenths of the quota are exact |
| `FuelInterlock.BoundIsTight` | crates/core/src/lib.rs:469-577 | for every quota and number of slots some run misses that bound by one unit |

## Left out

- HTTP handlers, provider clients, Redis, SQLite, Wasmtime, logging and metrics: input and output around the modelled logic.
- Budget deduction: `deduct_tokens` returns before its script runs (crates/traffic-control/src/rate_limiter.rs:741-746).
- HMAC, SHA-256, BLAKE3 and Ed25519: hashes are parameters, and a collision is a stated exception where it matters.
- The regular expression engine and the JSON parser: matches and parsed trees are given. `PiiProtector.Anchored` states what the pattern guarantees about where a match can start.
- Floating-point rounding: utilisation, refill and fuzzy tolerance are computed on reals; JSON numbers have significands and exponents of any size, and integers convert exactly.
- Clock readings: each call reads the clock once, where the code may read it several times within a call.
- In-place rewriting of JSON trees: `sort_json_keys` is a function on values, so sharing and update in place are not captured.
- Buckets inside the tenant map are values that are written back, not objects of their own.
- Step-level races inside the breaker, the fuel meters and the file map: each of their methods is one step.
- CanonicalJson.SameTextIffSameMeaning: the rendering of numbers is a parameter that tells numbers apart and uses numeric characters only, as serde's does; the digits it prints are not modelled.
- TmrConsensus.TmrConsensusEngine.Query: the elapsed time is a parameter, the token sum does not overflow 32 bits, and the text of the error is reduced to the number of answers.
- FuelInterlock.FuelBounded: the bound itself must fit 64 bits; beyond that the counters wrap.
- FlightRecorder.BackgroundWriter: database errors are not modelled, so a batch handed over counts as flushed.
- SingleFlight.InvariantHolds: the map lock that is held while a removed entry is marked cancelled is not modelled, which allows more interleavings than the code has.
- FuelInterlock.MetersAgreeIff: the utilisation ratio is exact, while the code divides in 64-bit floating point, which can round a ratio just below nine tenths up to it once quotas exceed about 2 to the power of 50.
- VirtualFs.VirtualFileSystem.WriteFile: mount point and limits are fixed at construction; restoring a saved filesystem is not modelled.
- Easy or single-branch parts: hot-swap containers, the fuel allocator and fuse, payload schema checks, staleness wrappers, configuration loading, the bucket registry, `reset` and `metrics` methods.
