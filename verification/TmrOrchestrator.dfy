/**
 The quorum decision of the orchestrator (crates/llm-router/src/coordinator.rs, with_providers and
 dispatch_consensus_inner): enough non-empty answers, then the engine's verdict, else the local
 fallback model. Provider calls and the fallback model itself are not part of this model.
 */
module TmrOrchestrator {
  import opened TmrConsensus

  datatype Decision = Consensus(verdict: Outcome) | Fallback

  /** One answer per adapter, in adapter order. */
  predicate AnswersOf(adapters: seq<Node>, rs: seq<Response>) {
    |rs| == |adapters| && forall i :: 0 <= i < |rs| ==> rs[i].provider == adapters[i]
  }

  predicate Answered(r: Response) { r.status.Success? && r.content != "" }

  function AnsweredCount(rs: seq<Response>): (n: nat)
    ensures n <= |rs|
  {
    if rs == [] then 0 else AnsweredCount(rs[..|rs| - 1]) + if Answered(rs[|rs| - 1]) then 1 else 0
  }

  function Distinct(adapters: seq<Node>): set<Node> { set n | n in adapters }

  ghost predicate DecisionFor(rs: seq<Response>, adapters: seq<Node>, config: Config, d: Decision) {
    var nodes := |Distinct(adapters)|;
    if AnsweredCount(rs) < config.minAgreement then d == Fallback
    else exists o :: EvaluateOutcome(rs, nodes, Required(config, nodes), o)
                  && d == if o.Agreed? then Consensus(o) else Fallback
  }

  /** The adapters that gave a non-empty answer. */
  function NonEmpty(rs: seq<Response>): set<int> {
    set i | 0 <= i < |rs| && rs[i].status.Success? && rs[i].content != ""
  }

  lemma {:induction false} AnsweredIsNonEmpty(rs: seq<Response>)
    ensures AnsweredCount(rs) == |NonEmpty(rs)|
  {
    if rs != [] {
      var n := |rs| - 1;
      AnsweredIsNonEmpty(rs[..n]);
      assert NonEmpty(rs) == NonEmpty(rs[..n]) + if rs[n].status.Success? && rs[n].content != "" then {n} else {};
    }
  }

  /** Consensus is announced exactly when `minAgreement` adapters gave a non-empty answer and enough answers, for
      the number of distinct provider ids, carry one key. */
  ghost predicate Announces(rs: seq<Response>, adapters: seq<Node>, config: Config, announced: bool) {
    if |NonEmpty(rs)| < config.minAgreement then !announced else Decides(config, |Distinct(adapters)|, rs, announced)
  }

  lemma DecisionAnnounces(rs: seq<Response>, adapters: seq<Node>, config: Config, d: Decision)
    requires DecisionFor(rs, adapters, config, d)
    ensures Announces(rs, adapters, config, d.Consensus?)
  {
    AnsweredIsNonEmpty(rs);
    if AnsweredCount(rs) >= config.minAgreement {
      var nodes := |Distinct(adapters)|;
      var o :| EvaluateOutcome(rs, nodes, Required(config, nodes), o) && d == if o.Agreed? then Consensus(o) else Fallback;
      EvaluateDecides(config, nodes, rs, o);
    }
  }

  /** Two different adapters gave answers under one key. */
  ghost predicate BackedByTwo(rs: seq<Response>) {
    exists i, j :: 0 <= i < j < |rs| && rs[i].Votes() && rs[j].Votes() && rs[i].key == rs[j].key
  }

  lemma {:induction false} SupportPosition(rs: seq<Response>, k: string) returns (i: nat)
    requires Support(rs, k) != []
    ensures i < |rs| && rs[i].Votes() && rs[i].key == k
  {
    var last := rs[|rs| - 1];
    if last.Votes() && last.key == k {
      i := |rs| - 1;
    } else {
      i := SupportPosition(rs[..|rs| - 1], k);
    }
  }

  lemma {:induction false} TwoSupporters(rs: seq<Response>, k: string)
    requires |Support(rs, k)| >= 2
    ensures BackedByTwo(rs)
  {
    var init, last := rs[..|rs| - 1], rs[|rs| - 1];
    if last.Votes() && last.key == k {
      var i := SupportPosition(init, k);
      assert rs[i].key == rs[|rs| - 1].key;
    } else {
      TwoSupporters(init, k);
      var i, j :| 0 <= i < j < |init| && init[i].Votes() && init[j].Votes() && init[i].key == init[j].key;
      assert rs[i].key == rs[j].key;
    }
  }

  /** Pairwise different ids are counted one by one: the condition of `StrictConsensusIsBacked`. */
  lemma {:induction false} DistinctCount(adapters: seq<Node>)
    requires forall i, j :: 0 <= i < j < |adapters| ==> adapters[i] != adapters[j]
    ensures |Distinct(adapters)| == |adapters|
  {
    if adapters != [] {
      var init, last := adapters[..|adapters| - 1], adapters[|adapters| - 1];
      DistinctCount(init);
      assert Distinct(adapters) == Distinct(init) + {last};
    }
  }

  /** A consensus is only announced when the engine found enough equal answers. */
  lemma ConsensusSupport(rs: seq<Response>, adapters: seq<Node>, config: Config, d: Decision) returns (k: string)
    requires DecisionFor(rs, adapters, config, d) && d.Consensus?
    ensures var nodes := |Distinct(adapters)|;
            && Reached(rs, k, Required(config, nodes))
            && d.verdict == Verdict(rs, k, nodes, MaxLatency(rs))
  {
    var nodes := |Distinct(adapters)|;
    k :| EvaluateWins(rs, Required(config, nodes), k) && d.verdict == Verdict(rs, k, nodes, MaxLatency(rs));
  }

  /** In strict mode with distinct provider ids no answer leaves the gateway on one provider's word,
      unless it comes from the fallback model. */
  lemma StrictConsensusIsBacked(rs: seq<Response>, adapters: seq<Node>, config: Config, d: Decision)
    requires config.strict && config.minAgreement >= 2 && AnswersOf(adapters, rs)
    requires |Distinct(adapters)| == |adapters|
    requires DecisionFor(rs, adapters, config, d) && d.Consensus?
    ensures BackedByTwo(rs) && |d.verdict.winners| >= 2
  {
    var k := ConsensusSupport(rs, adapters, config, d);
    TwoSupporters(rs, k);
  }

  // ----- Exactly when ------------------------------------------------------------------------

  /** Every adapter answers, each under a key of its own. */
  function AllDifferent(adapters: seq<Node>): (rs: seq<Response>)
    ensures AnswersOf(adapters, rs)
  {
    seq(|adapters|, i requires 0 <= i < |adapters| =>
      Response(adapters[i], "answer", seq(i + 1, _ => 'k'), 0, 0, Success))
  }

  lemma {:induction false} AllAnswered(rs: seq<Response>)
    requires forall i :: 0 <= i < |rs| ==> Answered(rs[i])
    ensures AnsweredCount(rs) == |rs|
  {
    if rs != [] { AllAnswered(rs[..|rs| - 1]); }
  }

  lemma AllDifferentUnbacked(adapters: seq<Node>)
    ensures !BackedByTwo(AllDifferent(adapters))
    ensures forall k :: |Support(AllDifferent(adapters), k)| <= 1
  {
    var rs := AllDifferent(adapters);
    forall i, j | 0 <= i < j < |rs| ensures rs[i].key != rs[j].key {
      assert |rs[i].key| == i + 1 && |rs[j].key| == j + 1;
    }
    forall k ensures |Support(rs, k)| <= 1 {
      if |Support(rs, k)| >= 2 { TwoSupporters(rs, k); }
    }
  }

  lemma {:induction false} KeyHasSupport(rs: seq<Response>, i: nat)
    requires i < |rs| && rs[i].Votes()
    ensures Support(rs, rs[i].key) != []
  {
    if i < |rs| - 1 {
      assert rs[..|rs| - 1][i] == rs[i];
      KeyHasSupport(rs[..|rs| - 1], i);
    }
  }

  lemma FirstWins(adapters: seq<Node>, required: nat)
    requires adapters != [] && required <= 1
    ensures EvaluateWins(AllDifferent(adapters), required, AllDifferent(adapters)[0].key)
  {
    AllDifferentUnbacked(adapters);
    KeyHasSupport(AllDifferent(adapters), 0);
  }

  /** Who wins the vote is announced. */
  lemma WinnerIsAnnounced(rs: seq<Response>, adapters: seq<Node>, config: Config, k: string)
    requires AnsweredCount(rs) >= config.minAgreement
    requires EvaluateWins(rs, Required(config, |Distinct(adapters)|), k)
    ensures DecisionFor(rs, adapters, config, Consensus(Verdict(rs, k, |Distinct(adapters)|, MaxLatency(rs))))
  {
    var nodes := |Distinct(adapters)|;
    assert EvaluateOutcome(rs, nodes, Required(config, nodes), Verdict(rs, k, nodes, MaxLatency(rs)));
  }

  /** In lenient mode, or if all adapters share one id, an answer nobody else gave is announced as consensus. */
  lemma UnbackedConsensus(adapters: seq<Node>, config: Config)
    requires 2 <= config.minAgreement <= |adapters|
    requires !config.strict || |Distinct(adapters)| <= 1
    ensures exists d :: DecisionFor(AllDifferent(adapters), adapters, config, d) && d.Consensus?
  {
    var rs := AllDifferent(adapters);
    AllAnswered(rs);
    FirstWins(adapters, Required(config, |Distinct(adapters)|));
    WinnerIsAnnounced(rs, adapters, config, rs[0].key);
  }

  /** Every announced consensus is backed by two adapters exactly in strict mode with two distinct provider ids or
      more. */
  lemma BackedIffThreshold(adapters: seq<Node>, config: Config)
    requires 2 <= config.minAgreement <= |adapters|
    ensures (forall rs, d :: AnswersOf(adapters, rs) && DecisionFor(rs, adapters, config, d) && d.Consensus?
                             ==> BackedByTwo(rs))
            <==> config.strict && |Distinct(adapters)| >= 2
  {
    if config.strict && |Distinct(adapters)| >= 2 {
      forall rs, d | AnswersOf(adapters, rs) && DecisionFor(rs, adapters, config, d) && d.Consensus?
        ensures BackedByTwo(rs)
      {
        var k := ConsensusSupport(rs, adapters, config, d);
        TwoSupporters(rs, k);
      }
    } else {
      UnbackedConsensus(adapters, config);
      AllDifferentUnbacked(adapters);
      var d :| DecisionFor(AllDifferent(adapters), adapters, config, d) && d.Consensus?;
      assert AnswersOf(adapters, AllDifferent(adapters));
    }
  }

  class Orchestrator {
    const adapters: seq<Node>
    const config: Config
    const engine: TmrConsensusEngine

    /** Engine and orchestrator share one configuration; the threshold is never below two. */
    ghost predicate Valid()
      reads engine
    {
      engine.config == config && config.minAgreement >= 2 && engine.AvailableNodes() == Distinct(adapters)
    }

    constructor (providers: seq<string>, strict: bool, minAgreement: nat)
      ensures Valid() && fresh(engine)
      ensures adapters == seq(|providers|, i requires 0 <= i < |providers| => Custom(providers[i]))
      ensures config == Config(strict, if minAgreement >= 2 then minAgreement else 2)
    {
      var nodes := seq(|providers|, i requires 0 <= i < |providers| => Custom(providers[i]));
      var c := Config(strict, if minAgreement >= 2 then minAgreement else 2);
      adapters := nodes;
      config := c;
      engine := new TmrConsensusEngine(c, nodes);
    }

    method Decide(responses: seq<Response>) returns (d: Decision)
      requires Valid() && AnswersOf(adapters, responses)
      ensures DecisionFor(responses, adapters, config, d) && Announces(responses, adapters, config, d.Consensus?)
    {
      var answered := 0;
      for i := 0 to |responses|
        invariant answered == AnsweredCount(responses[..i])
      {
        assert responses[..i + 1][..i] == responses[..i];
        if Answered(responses[i]) { answered := answered + 1; }
      }
      assert responses[..|responses|] == responses;
      if answered < config.minAgreement {
        d := Fallback;
        DecisionAnnounces(responses, adapters, config, d);
        return;
      }
      assert adapters[0] in Distinct(adapters);
      var verdict := engine.Evaluate(responses);
      d := if verdict.Agreed? then Consensus(verdict) else Fallback;
      DecisionAnnounces(responses, adapters, config, d);
    }
  }
}
