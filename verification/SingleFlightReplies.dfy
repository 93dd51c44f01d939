/**
 Who gets which reply (crates/llm-router/src/coordinator.rs, CacheSingleFlight::dedup): a leader answers with what it
 produced and publishes it, and everyone who joins its entry and stays gets the very same reply.
 */
module SingleFlightReplies {
  import opened Basics
  import opened SingleFlight

  // ----- Entries and their leaders -----------------------------------------------------------------------------

  /** Where the leader of entry `e` stands, and what it has published by then. */
  predicate LeaderAt(s: State, e: nat)
    requires e < |s.entries|
  {
    var pc, key, r := s.Pc(s.entries[e].leader), s.entries[e].key, s.entries[e].result;
    match pc
    case Leading(k, entry) => k == key && entry == e && r.None?
    case Computed(k, entry, _) => k == key && entry == e && r.None?
    case Closing(k, entry, outcome) => k == key && entry == e && r == outcome
    case Settling(k, _, outcome) => k == key && r == outcome
    case Done(k, reply) => k == key && r == Some(reply)
    case Gone => r.None?
    case _ => false
  }

  ghost predicate LeadersOk(s: State) {
    Invariant(s) && forall e: nat {:trigger LeaderAt(s, e)} :: e < |s.entries| ==> LeaderAt(s, e)
  }

  lemma LeaderMoves(s: State, a: Action, e: nat)
    requires LeadersOk(s) && Enabled(s, a) && e < |Next(s, a).entries| && Next(s, a).entries[e].leader == a.c
    ensures LeaderAt(Next(s, a), e)
  {
    assert CallOk(s, a.c, s.Pc(a.c));
    assert e < |s.entries| ==> LeaderAt(s, e);
  }

  lemma LeaderStays(s: State, a: Action, e: nat)
    requires LeadersOk(s) && Enabled(s, a) && e < |Next(s, a).entries| && Next(s, a).entries[e].leader != a.c
    ensures LeaderAt(Next(s, a), e)
  {
    assert CallOk(s, a.c, s.Pc(a.c)) && LeaderAt(s, e);
    assert Next(s, a).Pc(s.entries[e].leader) == s.Pc(s.entries[e].leader);
  }

  lemma LeadersStep(s: State, a: Action)
    requires LeadersOk(s) && Enabled(s, a)
    ensures LeadersOk(Next(s, a))
  {
    StepInvariant(s, a);
    forall e: nat | e < |Next(s, a).entries| ensures LeaderAt(Next(s, a), e) {
      if Next(s, a).entries[e].leader == a.c { LeaderMoves(s, a, e); } else { LeaderStays(s, a, e); }
    }
  }

  lemma {:induction false} LeadersHold(s: State, actions: seq<Action>, s': State)
    requires LeadersOk(s) && Runs(s, actions, s')
    ensures LeadersOk(s')
    decreases |actions|
  {
    if actions != [] {
      LeadersStep(s, actions[0]);
      LeadersHold(Next(s, actions[0]), actions[1..], s');
    }
  }

  /** Once settled, an entry stays so: its reply never changes and a cancellation is never taken back. */
  predicate Keeps(e: Entry, e': Entry) {
    e'.key == e.key && e'.leader == e.leader && (e.result.Some? ==> e'.result == e.result) && (e.cancelled ==> e'.cancelled)
  }

  lemma EntryKept(s: State, a: Action, e: nat)
    requires Invariant(s) && Enabled(s, a) && e < |s.entries|
    ensures e < |Next(s, a).entries| && Keeps(s.entries[e], Next(s, a).entries[e])
  {
    assert CallOk(s, a.c, s.Pc(a.c));
  }

  // ----- The leader ----------------------------------------------------------------------------------------------

  /** Call `c` has its reply: it is on its way out with it, or gone with it. */
  predicate Answering(s: State, c: nat, reply: Reply) {
    match s.Pc(c)
    case Computed(_, _, r) => r == reply
    case Closing(_, _, outcome) => outcome == Some(reply)
    case Settling(_, _, outcome) => outcome == Some(reply)
    case Done(_, r) => r == reply
    case _ => false
  }

  lemma {:induction false} AnswersWith(s: State, actions: seq<Action>, s': State, c: nat, reply: Reply)
    requires Runs(s, actions, s') && Answering(s, c, reply)
    ensures Answering(s', c, reply)
    decreases |actions|
  {
    if actions != [] { AnswersWith(Next(s, actions[0]), actions[1..], s', c, reply); }
  }

  /** In every run: a leader that has produced a reply cannot be cancelled any more, and when it is through it has
      answered with that reply and its entry holds it. */
  lemma LeaderAnswersWithIt(before: seq<Action>, s: State, c: nat, reply: Reply, after: seq<Action>, s': State)
    requires Runs(Init, before, s) && Enabled(s, Produce(c, reply)) && Runs(Next(s, Produce(c, reply)), after, s')
    requires s'.Pc(c).Over()
    ensures s'.Pc(c) == Done(s.Pc(c).key, reply)
    ensures s.Pc(c).entry < |s'.entries| && s'.entries[s.Pc(c).entry].result == Some(reply)
  {
    var s1, e := Next(s, Produce(c, reply)), s.Pc(c).entry;
    LeadersHold(Init, before, s);
    assert CallOk(s, c, s.Pc(c)) && LeaderAt(s, e);
    LeadersStep(s, Produce(c, reply));
    LeadersHold(s1, after, s');
    AnswersWith(s1, after, s', c, reply);
    EntriesKept(s1, after, s', e);
    assert LeaderAt(s', e);
  }

  lemma {:induction false} EntriesKept(s: State, actions: seq<Action>, s': State, e: nat)
    requires Invariant(s) && Runs(s, actions, s') && e < |s.entries|
    ensures e < |s'.entries| && Keeps(s.entries[e], s'.entries[e])
    decreases |actions|
  {
    if actions != [] {
      EntryKept(s, actions[0], e);
      StepInvariant(s, actions[0]);
      EntriesKept(Next(s, actions[0]), actions[1..], s', e);
    }
  }

  // ----- Those who join it -----------------------------------------------------------------------------------------

  /** The call neither times out nor is cancelled by its client. */
  predicate Stays(w: nat, actions: seq<Action>) {
    forall i :: 0 <= i < |actions| ==> !((actions[i].Expire? || actions[i].Abort?) && actions[i].c == w)
  }

  /** Call `w` watches entry `e`, or has read it once it was settled. */
  predicate Following(s: State, w: nat, key: string, e: nat) {
    && e < |s.entries|
    && var pc, entry := s.Pc(w), s.entries[e];
       || (pc.Watches() && pc.key == key && pc.entry == e && (pc.Woken? ==> entry.Settled()))
       || (pc.Done? && pc.key == key && (entry.result == Some(pc.reply) || (entry.cancelled && pc.reply == NoReply)))
  }

  lemma FollowingStep(s: State, a: Action, w: nat, key: string, e: nat)
    requires Invariant(s) && Enabled(s, a) && Following(s, w, key, e) && !((a.Expire? || a.Abort?) && a.c == w)
    ensures Following(Next(s, a), w, key, e)
  {
    EntryKept(s, a, e);
    assert CallOk(s, w, s.Pc(w)) && EntryOk(s, s.entries[e]);
  }

  lemma {:induction false} FollowingRuns(s: State, actions: seq<Action>, s': State, w: nat, key: string, e: nat)
    requires Invariant(s) && Runs(s, actions, s') && Following(s, w, key, e) && Stays(w, actions)
    ensures Following(s', w, key, e)
    decreases |actions|
  {
    if actions != [] {
      FollowingStep(s, actions[0], w, key, e);
      StepInvariant(s, actions[0]);
      FollowingRuns(Next(s, actions[0]), actions[1..], s', w, key, e);
    }
  }

  lemma Joining(s: State, w: nat)
    requires Invariant(s) && s.Pc(w).Found?
    ensures Following(s, w, s.Pc(w).key, s.Pc(w).entry)
  {
    assert CallOk(s, w, s.Pc(w));
  }

  /** In every run: who joins an entry and stays gets its reply, or the empty default if the entry was cancelled. */
  lemma JoinerGetsTheReply(before: seq<Action>, s: State, w: nat, after: seq<Action>, s': State)
    requires Runs(Init, before, s) && s.Pc(w).Found? && Runs(s, after, s') && Stays(w, after) && s'.Pc(w).Over()
    ensures s.Pc(w).entry < |s'.entries| && s'.Pc(w).Done? && s'.Pc(w).key == s.Pc(w).key
    ensures var e := s'.entries[s.Pc(w).entry];
            e.result == Some(s'.Pc(w).reply) || (e.cancelled && s'.Pc(w).reply == NoReply)
  {
    InvariantHolds(Init, before, s);
    Joining(s, w);
    FollowingRuns(s, after, s', w, s.Pc(w).key, s.Pc(w).entry);
  }

  lemma {:induction false} OrderlyIsRun(s: State, actions: seq<Action>, s': State)
    requires OrderlyRuns(s, actions, s')
    ensures Runs(s, actions, s')
    decreases |actions|
  {
    if actions != [] { OrderlyIsRun(Next(s, actions[0]), actions[1..], s'); }
  }

  /** If no insert overwrites an entry: everyone who joins an entry and stays ends with the reply its leader answers
      with, and with the empty default only if the leader was cancelled. */
  lemma EveryoneGetsTheReply(before: seq<Action>, s: State, w: nat, after: seq<Action>, s': State)
    requires OrderlyRuns(Init, before, s) && s.Pc(w).Found? && OrderlyRuns(s, after, s')
    requires Stays(w, after) && s'.Pc(w).Over()
    ensures s.Pc(w).entry < |s'.entries| && s'.Pc(w).Done? && s'.Pc(w).key == s.Pc(w).key
    ensures var leader := s'.Pc(s'.entries[s.Pc(w).entry].leader);
            && (leader.Done? ==> s'.Pc(w).reply == leader.reply)
            && (leader.Gone? ==> s'.Pc(w).reply == NoReply)
            && (!leader.Over() ==> (leader.Closing? || leader.Settling?) && leader.outcome == Some(s'.Pc(w).reply))
  {
    OrderlyIsRun(Init, before, s);
    OrderlyIsRun(s, after, s');
    JoinerGetsTheReply(before, s, w, after, s');
    SoloHolds(Init, before, s);
    SoloHolds(s, after, s');
    LeadersHold(Init, before, s);
    LeadersHold(s, after, s');
    var e := s.Pc(w).entry;
    assert LeaderAt(s', e) && CancelOk(s', s'.entries[e]);
  }
}
