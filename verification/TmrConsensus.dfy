/**
 Majority voting over provider answers (crates/consensus/src/tmr_consensus.rs, TmrConsensusEngine).
 `Query` counts answers as they arrive and stops early; `Evaluate` counts a complete list. Both pick
 from a hash map, so which of several qualified keys wins is left open here as it is there.
 */
module TmrConsensus {

  datatype Node = GoogleGemini | DeepSeek | Groq | Custom(id: string)

  datatype Health = Healthy | Degraded | Tripped

  datatype Status = Success | RateLimited | ServerError | NetworkError | Timeout

  datatype Response = Response(provider: Node, content: string, key: string, latency: nat, tokens: nat, status: Status) {
    /** Only a successful answer with a key takes part in the vote. */
    predicate Votes() { status.Success? && key != "" }
  }

  datatype Config = Config(strict: bool, minAgreement: nat)

  /** One entry of the vote map. */
  datatype Ballot = Ballot(count: nat, content: string, providers: seq<Node>)

  datatype Outcome =
    | Agreed(content: string, winners: seq<Node>, latency: nat, degraded: bool, tokens: nat)
    | AllProvidersUnavailable
    | NoConsensus(received: nat)

  /** Number of equal answers needed with `nodes` providers available. */
  function Required(config: Config, nodes: nat): nat {
    if !config.strict then 1 else if nodes >= 3 then config.minAgreement else nodes
  }

  // ----- The vote map ------------------------------------------------------------------------

  function Cast(votes: map<string, Ballot>, r: Response): map<string, Ballot> {
    if !r.Votes() then votes
    else
      var seen := if r.key in votes then votes[r.key] else Ballot(0, "", []);
      votes[r.key := Ballot(seen.count + 1, r.content, seen.providers + [r.provider])]
  }

  function Tally(rs: seq<Response>): map<string, Ballot> {
    if rs == [] then map[] else Cast(Tally(rs[..|rs| - 1]), rs[|rs| - 1])
  }

  function Tokens(rs: seq<Response>): nat {
    if rs == [] then 0 else Tokens(rs[..|rs| - 1]) + rs[|rs| - 1].tokens
  }

  function MaxLatency(rs: seq<Response>): nat {
    if rs == [] then 0
    else
      var before, last := MaxLatency(rs[..|rs| - 1]), rs[|rs| - 1].latency;
      if last > before then last else before
  }

  // ----- What it counts: the answers that carry a key ------------------------------------------

  function Support(rs: seq<Response>, k: string): (s: seq<Response>)
    ensures |s| <= |rs|
  {
    if rs == [] then []
    else
      var before, last := Support(rs[..|rs| - 1], k), rs[|rs| - 1];
      if last.Votes() && last.key == k then before + [last] else before
  }

  function Providers(rs: seq<Response>): (ps: seq<Node>)
    ensures |ps| == |rs|
  {
    if rs == [] then [] else Providers(rs[..|rs| - 1]) + [rs[|rs| - 1].provider]
  }

  lemma {:induction false} TallyCounts(rs: seq<Response>, k: string)
    ensures k in Tally(rs) <==> Support(rs, k) != []
    ensures k in Tally(rs) ==>
              var s := Support(rs, k);
              Tally(rs)[k] == Ballot(|s|, s[|s| - 1].content, Providers(s))
  {
    if rs != [] {
      TallyCounts(rs[..|rs| - 1], k);
      var before, last := Support(rs[..|rs| - 1], k), rs[|rs| - 1];
      if last.Votes() && last.key == k {
        assert (before + [last])[..|before|] == before;
      }
    }
  }

  lemma {:induction false} SupportMembers(rs: seq<Response>, k: string, r: Response)
    requires r in Support(rs, k)
    ensures r in rs && r.Votes() && r.key == k
  {
    if r in Support(rs[..|rs| - 1], k) { SupportMembers(rs[..|rs| - 1], k, r); }
  }

  lemma {:induction false} SupportMultiplicity(rs: seq<Response>, k: string, r: Response)
    ensures multiset(Support(rs, k))[r] == if r.Votes() && r.key == k then multiset(rs)[r] else 0
  {
    if rs != [] {
      SupportMultiplicity(rs[..|rs| - 1], k, r);
      assert rs == rs[..|rs| - 1] + [rs[|rs| - 1]];
    }
  }

  /** Support depends on the answers only, not on their order. */
  lemma SupportOrderFree(rs: seq<Response>, ss: seq<Response>, k: string)
    requires multiset(rs) == multiset(ss)
    ensures multiset(Support(rs, k)) == multiset(Support(ss, k))
    ensures |Support(rs, k)| == |Support(ss, k)|
  {
    forall r
      ensures multiset(Support(rs, k))[r] == multiset(Support(ss, k))[r]
    {
      SupportMultiplicity(rs, k, r);
      SupportMultiplicity(ss, k, r);
    }
    assert multiset(Support(rs, k)) == multiset(Support(ss, k));
    assert |Support(rs, k)| == |multiset(Support(rs, k))|;
  }

  /** Two different keys share no answer. */
  lemma {:induction false} SupportDisjoint(rs: seq<Response>, k1: string, k2: string)
    requires k1 != k2
    ensures |Support(rs, k1)| + |Support(rs, k2)| <= |rs|
  {
    if rs != [] { SupportDisjoint(rs[..|rs| - 1], k1, k2); }
  }

  lemma {:induction false} SupportGrows(rs: seq<Response>, p: nat, k: string)
    requires p <= |rs|
    ensures Support(rs[..p], k) <= Support(rs, k)
  {
    if p < |rs| {
      SupportGrows(rs[..|rs| - 1], p, k);
      assert rs[..|rs| - 1][..p] == rs[..p];
    } else {
      assert rs[..p] == rs;
    }
  }

  // ----- Winning ------------------------------------------------------------------------------

  predicate Reached(rs: seq<Response>, k: string, required: nat) {
    Support(rs, k) != [] && |Support(rs, k)| >= required
  }

  /** The verdict for key `k`: the content of its latest answer and everyone who gave it. */
  function Verdict(rs: seq<Response>, k: string, nodes: nat, latency: nat): Outcome
    requires Support(rs, k) != []
  {
    var s := Support(rs, k);
    Agreed(s[|s| - 1].content, Providers(s), latency, nodes < 3, Tokens(rs))
  }

  /** `k` is among the first keys to qualify, after `p` arrivals. */
  ghost predicate QueryWins(arrivals: seq<Response>, required: nat, p: nat, k: string) {
    && 1 <= p <= |arrivals|
    && Reached(arrivals[..p], k, required)
    && forall q, other :: 1 <= q < p ==> !Reached(arrivals[..q], other, required)
  }

  ghost predicate NobodyReaches(rs: seq<Response>, required: nat) {
    forall k :: !Reached(rs, k, required)
  }

  ghost predicate QueryOutcome(arrivals: seq<Response>, nodes: nat, required: nat, elapsed: nat, o: Outcome) {
    || (exists p: nat, k :: QueryWins(arrivals, required, p, k) && o == Verdict(arrivals[..p], k, nodes, elapsed))
    || (NobodyReaches(arrivals, required) && o == NoConsensus(|arrivals|))
  }

  ghost predicate EvaluateWins(rs: seq<Response>, required: nat, k: string) {
    Reached(rs, k, required) && forall other :: |Support(rs, other)| <= |Support(rs, k)|
  }

  ghost predicate EvaluateOutcome(rs: seq<Response>, nodes: nat, required: nat, o: Outcome) {
    || (exists k :: EvaluateWins(rs, required, k) && o == Verdict(rs, k, nodes, MaxLatency(rs)))
    || (NobodyReaches(rs, required) && o == NoConsensus(|rs|))
  }

  // ----- Streaming refines batch ----------------------------------------------------------------

  lemma ReachedPersists(rs: seq<Response>, p: nat, k: string, required: nat)
    requires p <= |rs| && Reached(rs[..p], k, required)
    ensures Reached(rs, k, required)
  {
    SupportGrows(rs, p, k);
  }

  lemma ReachedOrderFree(rs: seq<Response>, ss: seq<Response>, k: string, required: nat)
    requires multiset(rs) == multiset(ss)
    ensures Reached(rs, k, required) <==> Reached(ss, k, required)
  {
    SupportOrderFree(rs, ss, k);
  }

  /** `Query` over the answers in arrival order succeeds exactly when `Evaluate` does over the same
      answers in any order; this holds in every mode and for every threshold. */
  lemma StreamingSucceedsIffBatch(arrivals: seq<Response>, rs: seq<Response>, nodes: nat, required: nat,
                                  elapsed: nat, streamed: Outcome, batch: Outcome)
    requires multiset(arrivals) == multiset(rs)
    requires QueryOutcome(arrivals, nodes, required, elapsed, streamed)
    requires EvaluateOutcome(rs, nodes, required, batch)
    ensures streamed.Agreed? <==> batch.Agreed?
  {
    if streamed.Agreed? {
      var p: nat, k :| QueryWins(arrivals, required, p, k) && streamed == Verdict(arrivals[..p], k, nodes, elapsed);
      ReachedPersists(arrivals, p, k, required);
      ReachedOrderFree(arrivals, rs, k, required);
    }
    if batch.Agreed? {
      var k :| EvaluateWins(rs, required, k) && batch == Verdict(rs, k, nodes, MaxLatency(rs));
      ReachedOrderFree(arrivals, rs, k, required);
    }
  }

  /** When the threshold is more than half of the answers, both name the same key, the streamed
      winners are among the batch winners, and both contents were answered under that key. */
  lemma StreamingAgreesWithBatch(arrivals: seq<Response>, rs: seq<Response>, required: nat,
                                 p: nat, streamedKey: string, batchKey: string)
    requires multiset(arrivals) == multiset(rs) && 2 * required > |arrivals|
    requires QueryWins(arrivals, required, p, streamedKey) && EvaluateWins(rs, required, batchKey)
    ensures streamedKey == batchKey
    ensures multiset(Support(arrivals[..p], streamedKey)) <= multiset(Support(rs, batchKey))
    ensures multiset(Providers(Support(arrivals[..p], streamedKey))) <= multiset(Providers(Support(rs, batchKey)))
  {
    ReachedPersists(arrivals, p, streamedKey, required);
    SupportOrderFree(arrivals, rs, batchKey);
    if streamedKey != batchKey { SupportDisjoint(arrivals, streamedKey, batchKey); }
    SupportGrows(arrivals, p, batchKey);
    PrefixWinners(Support(arrivals[..p], batchKey), Support(arrivals, batchKey), Support(rs, batchKey));
  }

  lemma PrefixWinners(part: seq<Response>, whole: seq<Response>, reordered: seq<Response>)
    requires part <= whole && multiset(whole) == multiset(reordered)
    ensures multiset(part) <= multiset(reordered)
    ensures multiset(Providers(part)) <= multiset(Providers(reordered))
  {
    assert whole == part + whole[|part|..];
    ProvidersConcat(part, whole[|part|..]);
    ProvidersOrderFree(whole, reordered);
  }

  lemma {:induction false} ProvidersConcat(a: seq<Response>, b: seq<Response>)
    ensures Providers(a + b) == Providers(a) + Providers(b)
  {
    if b == [] {
      assert a + b == a;
    } else {
      assert (a + b)[..|a + b| - 1] == a + b[..|b| - 1];
      ProvidersConcat(a, b[..|b| - 1]);
    }
  }

  lemma RemoveOne(b: seq<Response>, x: Response) returns (left: seq<Response>, right: seq<Response>)
    requires x in b
    ensures b == left + [x] + right
    ensures multiset(left + right) == multiset(b) - multiset{x}
  {
    var i :| 0 <= i < |b| && b[i] == x;
    left, right := b[..i], b[i + 1..];
    assert b == left + [x] + right;
    assert multiset(b) == multiset(left) + multiset{x} + multiset(right);
  }

  lemma ProvidersAround(left: seq<Response>, x: Response, right: seq<Response>)
    ensures multiset(Providers(left + [x] + right)) == multiset(Providers(left + right)) + multiset{x.provider}
  {
    ProvidersConcat(left, right);
    ProvidersConcat(left, [x]);
    ProvidersConcat(left + [x], right);
    assert Providers([x]) == [x.provider] by { assert [x][..0] == []; }
  }

  lemma {:induction false} ProvidersOrderFree(a: seq<Response>, b: seq<Response>)
    requires multiset(a) == multiset(b)
    ensures multiset(Providers(a)) == multiset(Providers(b))
  {
    if a == [] {
      assert |multiset(b)| == 0;
    } else {
      var init, last := a[..|a| - 1], a[|a| - 1];
      assert a == init + [last] + [];
      assert last in multiset(b);
      var left, right := RemoveOne(b, last);
      assert multiset(init) == multiset(a) - multiset{last};
      ProvidersOrderFree(init, left + right);
      ProvidersAround(left, last, right);
      ProvidersAround(init, last, []);
      assert init + [] == init;
    }
  }

  /** The content returned for a key was sent by a provider whose answer carries that key. */
  lemma VerdictContent(rs: seq<Response>, k: string, nodes: nat, latency: nat) returns (r: Response)
    requires Support(rs, k) != []
    ensures r in rs && r.Votes() && r.key == k && Verdict(rs, k, nodes, latency).content == r.content
  {
    var s := Support(rs, k);
    r := s[|s| - 1];
    SupportMembers(rs, k, r);
  }

  /** Fault masking: `required` equal answers win whatever the fewer-than-`required` others say. */
  lemma FaultMasking(rs: seq<Response>, nodes: nat, required: nat, k: string, o: Outcome)
    requires |Support(rs, k)| >= required >= 1 && |rs| - |Support(rs, k)| < required
    requires EvaluateOutcome(rs, nodes, required, o)
    ensures o == Verdict(rs, k, nodes, MaxLatency(rs))
  {
    assert Reached(rs, k, required);
    var w :| EvaluateWins(rs, required, w) && o == Verdict(rs, w, nodes, MaxLatency(rs));
    if w != k { SupportDisjoint(rs, w, k); }
  }

  // ----- How many votes it takes -----------------------------------------------------------------

  /** The successful answers under a key, by their positions. */
  function Matching(rs: seq<Response>, k: string): set<int> {
    set i | 0 <= i < |rs| && rs[i].status.Success? && rs[i].key == k
  }

  lemma {:induction false} MatchingIsSupport(rs: seq<Response>, k: string)
    ensures |Support(rs, k)| == if k == "" then 0 else |Matching(rs, k)|
  {
    if rs != [] {
      var n := |rs| - 1;
      MatchingIsSupport(rs[..n], k);
      MatchingLast(rs, k);
    }
  }

  lemma MatchingLast(rs: seq<Response>, k: string)
    requires rs != []
    ensures var n := |rs| - 1;
            && n !in Matching(rs[..n], k)
            && Matching(rs, k) == Matching(rs[..n], k) + if rs[n].status.Success? && rs[n].key == k then {n} else {}
  {
  }

  /** Some key other than the empty one has been given `n` times, and at least once. */
  ghost predicate GivenTimes(rs: seq<Response>, n: nat) {
    exists k :: k != "" && |Matching(rs, k)| >= 1 && |Matching(rs, k)| >= n
  }

  /** Agreement is announced exactly when enough answers carry one key: in strict mode `minAgreement` of them with
      three or more nodes and as many as there are nodes below that, otherwise a single one. */
  ghost predicate Decides(config: Config, nodes: nat, rs: seq<Response>, agreed: bool) {
    && (config.strict && nodes >= 3 ==> (agreed <==> GivenTimes(rs, config.minAgreement)))
    && (config.strict && nodes < 3 ==> (agreed <==> GivenTimes(rs, nodes)))
    && (!config.strict ==> (agreed <==> exists r :: r in rs && r.status.Success? && r.key != ""))
  }

  lemma GivenIsReached(rs: seq<Response>, n: nat)
    ensures GivenTimes(rs, n) <==> exists k :: Reached(rs, k, n)
  {
    forall k ensures Reached(rs, k, n) <==> k != "" && |Matching(rs, k)| >= 1 && |Matching(rs, k)| >= n {
      MatchingIsSupport(rs, k);
    }
  }

  /** A single vote is enough for a threshold of one. */
  lemma AnyVote(rs: seq<Response>)
    ensures GivenTimes(rs, 1) <==> exists r :: r in rs && r.status.Success? && r.key != ""
  {
    if r :| r in rs && r.status.Success? && r.key != "" {
      var i :| 0 <= i < |rs| && rs[i] == r;
      assert i in Matching(rs, r.key);
    }
    if k :| k != "" && |Matching(rs, k)| >= 1 {
      var i :| i in Matching(rs, k);
      assert rs[i] in rs;
    }
  }

  lemma ReachedDecides(config: Config, nodes: nat, rs: seq<Response>)
    ensures Decides(config, nodes, rs, exists k :: Reached(rs, k, Required(config, nodes)))
  {
    GivenIsReached(rs, Required(config, nodes));
    AnyVote(rs);
  }

  /** The batch form announces agreement exactly when there are enough votes. */
  lemma EvaluateDecides(config: Config, nodes: nat, rs: seq<Response>, o: Outcome)
    requires EvaluateOutcome(rs, nodes, Required(config, nodes), o)
    ensures Decides(config, nodes, rs, o.Agreed?)
  {
    ReachedDecides(config, nodes, rs);
  }

  /** So does the streaming form. */
  lemma QueryDecides(config: Config, nodes: nat, arrivals: seq<Response>, elapsed: nat, o: Outcome)
    requires QueryOutcome(arrivals, nodes, Required(config, nodes), elapsed, o)
    ensures Decides(config, nodes, arrivals, o.Agreed?)
  {
    var required := Required(config, nodes);
    ReachedDecides(config, nodes, arrivals);
    if o.Agreed? {
      var p: nat, k :| QueryWins(arrivals, required, p, k) && o == Verdict(arrivals[..p], k, nodes, elapsed);
      ReachedPersists(arrivals, p, k, required);
    }
  }

  /** The latency of a batch verdict is that of the slowest answer. */
  lemma {:induction false} LatencyOfSlowest(rs: seq<Response>)
    ensures forall r :: r in rs ==> r.latency <= MaxLatency(rs)
    ensures rs != [] ==> exists r :: r in rs && r.latency == MaxLatency(rs)
  {
    if rs != [] {
      var init, last := rs[..|rs| - 1], rs[|rs| - 1];
      LatencyOfSlowest(init);
      assert rs == init + [last];
      if init != [] && MaxLatency(init) >= last.latency {
        var r :| r in init && r.latency == MaxLatency(init);
        assert r in rs;
      } else {
        assert last in rs;
      }
    }
  }

  // ----- The majority condition is exact ---------------------------------------------------------

  /** `first` answers under key "a", then all others under key "b". */
  function SplitVote(nodes: seq<Node>, first: nat): (rs: seq<Response>)
    ensures |rs| == |nodes|
  {
    seq(|nodes|, i requires 0 <= i < |nodes| =>
      Response(nodes[i], "", if i < first then "a" else "b", 0, 0, Success))
  }

  lemma {:induction false} SplitVoteSupport(nodes: seq<Node>, first: nat, p: nat, k: string)
    requires p <= |nodes|
    ensures |Support(SplitVote(nodes, first)[..p], k)| ==
              (if k == "a" then (if p < first then p else first)
               else if k == "b" then (if p < first then 0 else p - first)
               else 0)
  {
    if p > 0 {
      var rs := SplitVote(nodes, first)[..p];
      assert rs[..|rs| - 1] == SplitVote(nodes, first)[..p - 1];
      SplitVoteSupport(nodes, first, p - 1, k);
    }
  }

  /** At or below half of the answers the two forms can name different keys. */
  lemma SplitVoteDisagrees(nodes: seq<Node>, required: nat)
    requires 1 <= required && 2 * required <= |nodes|
    ensures QueryWins(SplitVote(nodes, required), required, required, "a")
    ensures EvaluateWins(SplitVote(nodes, required), required, "b")
  {
    var rs := SplitVote(nodes, required);
    forall p, k | 0 <= p <= |nodes|
      ensures |Support(rs[..p], k)| == (if k == "a" then (if p < required then p else required)
                                        else if k == "b" then (if p < required then 0 else p - required)
                                        else 0)
    {
      SplitVoteSupport(nodes, required, p, k);
    }
    assert rs[..|rs|] == rs;
  }

  /** Streamed and batch winners coincide on every vote exactly when the threshold is a majority. */
  lemma SameWinnerIffMajority(nodes: seq<Node>, required: nat)
    requires 1 <= required
    ensures (forall arrivals: seq<Response>, p: nat, k1, k2 ::
               |arrivals| == |nodes| && QueryWins(arrivals, required, p, k1) && EvaluateWins(arrivals, required, k2)
               ==> k1 == k2)
            <==> 2 * required > |nodes|
  {
    if 2 * required > |nodes| {
      forall arrivals: seq<Response>, p: nat, k1, k2 |
        |arrivals| == |nodes| && QueryWins(arrivals, required, p, k1) && EvaluateWins(arrivals, required, k2)
        ensures k1 == k2
      {
        StreamingAgreesWithBatch(arrivals, arrivals, required, p, k1, k2);
      }
    } else {
      SplitVoteDisagrees(nodes, required);
      assert |SplitVote(nodes, required)| == |nodes|;
    }
  }

  // ----- The engine -------------------------------------------------------------------------------

  lemma {:induction false} BestExists(votes: map<string, Ballot>) returns (best: string)
    requires votes != map[]
    ensures best in votes && forall k :: k in votes ==> votes[k].count <= votes[best].count
    decreases |votes|
  {
    var k :| k in votes;
    var rest := votes - {k};
    if rest == map[] {
      assert forall j :: j in votes ==> j == k || j in rest;
      best := k;
    } else {
      assert |rest| < |votes| by { assert rest.Keys == votes.Keys - {k}; }
      var other := BestExists(rest);
      best := if votes[other].count > votes[k].count then other else k;
      assert forall j :: j in votes ==> j == k || j in rest;
    }
  }

  lemma TallyVerdict(rs: seq<Response>, k: string, nodes: nat, latency: nat)
    requires k in Tally(rs)
    ensures Support(rs, k) != []
    ensures var b := Tally(rs)[k];
            b.count == |Support(rs, k)| &&
            Verdict(rs, k, nodes, latency) == Agreed(b.content, b.providers, latency, nodes < 3, Tokens(rs))
  {
    TallyCounts(rs, k);
  }

  lemma NoneQualified(rs: seq<Response>, required: nat)
    requires forall k :: k in Tally(rs) ==> Tally(rs)[k].count < required
    ensures NobodyReaches(rs, required)
  {
    forall k ensures !Reached(rs, k, required) { TallyCounts(rs, k); }
  }

  lemma MostVotesWins(rs: seq<Response>, required: nat, k: string)
    requires k in Tally(rs) && Tally(rs)[k].count >= required
    requires forall j :: j in Tally(rs) ==> Tally(rs)[j].count <= Tally(rs)[k].count
    ensures EvaluateWins(rs, required, k)
  {
    TallyCounts(rs, k);
    forall other ensures |Support(rs, other)| <= |Support(rs, k)| { TallyCounts(rs, other); }
  }

  lemma TallyStep(rs: seq<Response>, i: nat)
    requires i < |rs|
    ensures Tally(rs[..i + 1]) == Cast(Tally(rs[..i]), rs[i])
    ensures Tokens(rs[..i + 1]) == Tokens(rs[..i]) + rs[i].tokens
    ensures MaxLatency(rs[..i + 1]) ==
              if rs[i].latency > MaxLatency(rs[..i]) then rs[i].latency else MaxLatency(rs[..i])
  {
    assert rs[..i + 1][..i] == rs[..i];
  }

  class TmrConsensusEngine {
    const config: Config
    var nodeHealth: map<Node, Health>

    constructor (config: Config, nodes: seq<Node>)
      ensures this.config == config
      ensures AvailableNodes() == set n | n in nodes
    {
      this.config := config;
      nodeHealth := map n | n in nodes :: Healthy;
    }

    /** The nodes whose circuit has not tripped. */
    function AvailableNodes(): (available: set<Node>)
      reads this
      ensures forall n :: n in available <==> n in nodeHealth && nodeHealth[n] != Tripped
    {
      set n | n in nodeHealth && nodeHealth[n] != Tripped
    }

    method UpdateNodeHealth(node: Node, health: Health)
      modifies this
      ensures AvailableNodes() ==
        if health == Tripped then old(AvailableNodes()) - {node} else old(AvailableNodes()) + {node}
    {
      nodeHealth := nodeHealth[node := health];
    }

    /** One answer per available node, in arrival order; returns at the first qualified key. */
    method Query(arrivals: seq<Response>, elapsed: nat) returns (o: Outcome)
      requires |arrivals| == |AvailableNodes()|
      ensures AvailableNodes() == {} ==> o == AllProvidersUnavailable
      ensures AvailableNodes() != {} ==>
        var n := |AvailableNodes()|;
        QueryOutcome(arrivals, n, Required(config, n), elapsed, o) && Decides(config, n, arrivals, o.Agreed?)
      ensures o.Agreed? ==> (o.degraded <==> |AvailableNodes()| < 3) && o.latency == elapsed
      ensures o.Agreed? ==> exists p :: 0 < p <= |arrivals| && o.tokens == Tokens(arrivals[..p])
    {
      var nodes := |AvailableNodes()|;
      if nodes == 0 { return AllProvidersUnavailable; }
      var votes: map<string, Ballot>, tokens: nat := map[], 0;
      var required := Required(config, nodes);
      for i := 0 to |arrivals|
        invariant votes == Tally(arrivals[..i]) && tokens == Tokens(arrivals[..i])
        invariant forall q :: 0 <= q <= i ==> NobodyReaches(arrivals[..q], required)
      {
        TallyStep(arrivals, i);
        votes := Cast(votes, arrivals[i]);
        tokens := tokens + arrivals[i].tokens;
        if exists k :: k in votes && votes[k].count >= required {
          var k :| k in votes && votes[k].count >= required;
          o := Agreed(votes[k].content, votes[k].providers, elapsed, nodes < 3, tokens);
          TallyVerdict(arrivals[..i + 1], k, nodes, elapsed);
          assert QueryWins(arrivals, required, i + 1, k);
          QueryDecides(config, nodes, arrivals, elapsed, o);
          return;
        }
        NoneQualified(arrivals[..i + 1], required);
      }
      assert arrivals[..|arrivals|] == arrivals;
      o := NoConsensus(|arrivals|);
      QueryDecides(config, nodes, arrivals, elapsed, o);
    }

    /** A complete list of answers; the key with most votes wins if it has enough. */
    method Evaluate(responses: seq<Response>) returns (o: Outcome)
      ensures responses == [] ==> o == AllProvidersUnavailable
      ensures responses != [] ==>
        var n := if AvailableNodes() == {} then |responses| else |AvailableNodes()|;
        EvaluateOutcome(responses, n, Required(config, n), o) && Decides(config, n, responses, o.Agreed?)
      ensures o.Agreed? ==>
        && o.tokens == Tokens(responses) && (forall r :: r in responses ==> r.latency <= o.latency)
        && (o.degraded <==> if AvailableNodes() == {} then |responses| < 3 else |AvailableNodes()| < 3)
    {
      if responses == [] { return AllProvidersUnavailable; }
      var nodes := if AvailableNodes() == {} then |responses| else |AvailableNodes()|;
      var votes: map<string, Ballot>, tokens: nat, latency: nat := map[], 0, 0;
      for i := 0 to |responses|
        invariant votes == Tally(responses[..i]) && tokens == Tokens(responses[..i])
        invariant latency == MaxLatency(responses[..i])
      {
        TallyStep(responses, i);
        tokens := tokens + responses[i].tokens;
        latency := if responses[i].latency > latency then responses[i].latency else latency;
        votes := Cast(votes, responses[i]);
      }
      assert responses[..|responses|] == responses;
      var required := Required(config, nodes);
      if votes != map[] {
        ghost var best := BestExists(votes);
        var k :| k in votes && forall j :: j in votes ==> votes[j].count <= votes[k].count;
        if votes[k].count >= required {
          o := Agreed(votes[k].content, votes[k].providers, latency, nodes < 3, tokens);
          TallyVerdict(responses, k, nodes, latency);
          MostVotesWins(responses, required, k);
          EvaluateDecides(config, nodes, responses, o);
          LatencyOfSlowest(responses);
          return;
        }
      }
      NoneQualified(responses, required);
      o := NoConsensus(|responses|);
      EvaluateDecides(config, nodes, responses, o);
    }
  }
}
