/**
 Request deduplication (crates/llm-router/src/coordinator.rs, CacheSingleFlight::dedup and the drop of
 SingleFlightGuard) as a step machine: one step per critical section, wake-up, timeout or cancellation.
 Looking a key up and inserting an entry for it are separate critical sections. Removing an entry and
 marking it cancelled are separate steps too, which allows more interleavings than the nested locks do.

 `produced` and the key, leader and notification count of an entry are history: a waiter compares
 notification counts only in the way a fresh `Notified` future sees later calls of `notify_waiters`.
 */
module SingleFlight {
  import opened Basics

  datatype Reply = Reply(content: string)

  /** The default consensus result: what a watcher gets on cancellation or timeout. */
  const NoReply: Reply := Reply("")

  datatype Entry = Entry(key: string, leader: nat, result: Option<Reply>, cancelled: bool, notifies: nat) {
    predicate Settled() { result.Some? || cancelled }

    /** How often the entry has been settled: by its reply, and by a cancellation that came first. */
    function Times(): nat { (if result.Some? then 1 else 0) + (if cancelled then 1 else 0) }
  }

  /** Where a call stands. */
  datatype Pc =
    | Idle
    | Begun(key: string)
    | Missed(key: string)
    | Leading(key: string, entry: nat)
    | Computed(key: string, entry: nat, reply: Reply)
    | Closing(key: string, entry: nat, outcome: Option<Reply>)
    | Settling(key: string, removed: Option<nat>, outcome: Option<Reply>)
    | Found(key: string, entry: nat)
    | Checked(key: string, entry: nat)
    | Cloned(key: string, entry: nat)
    | Waiting(key: string, entry: nat, epoch: nat)
    | Woken(key: string, entry: nat)
    | Done(key: string, reply: Reply)
    | Gone
  {
    /** The call owns the guard that will clean the map up. */
    predicate Guards() { Leading? || Computed? || Closing? }

    predicate Watches() { Found? || Checked? || Cloned? || Waiting? || Woken? }

    predicate Over() { Idle? || Done? || Gone? }
  }

  datatype State = State(inflight: map<string, nat>, entries: seq<Entry>, pcs: map<nat, Pc>, produced: set<(string, Reply)>) {
    function Pc(c: nat): Pc { if c in pcs then pcs[c] else Idle }

    function Go(c: nat, pc: Pc): State { this.(pcs := pcs[c := pc]) }
  }

  datatype Action =
    | Begin(c: nat, key: string)
    | Lookup(c: nat)
    | Insert(c: nat)
    | Produce(c: nat, reply: Reply)
    | Publish(c: nat)
    | Abort(c: nat)
    | Remove(c: nat)
    | Settle(c: nat)
    | Check(c: nat)
    | Recheck(c: nat)
    | Register(c: nat)
    | Wake(c: nat)
    | Read(c: nat)
    | Expire(c: nat)

  /** Every entry id a call holds exists. */
  predicate InRange(s: State, pc: Pc) {
    && (pc.Guards() || pc.Watches() ==> pc.entry < |s.entries|)
    && (pc.Settling? && pc.removed.Some? ==> pc.removed.value < |s.entries|)
  }

  predicate Enabled(s: State, a: Action) {
    var pc := s.Pc(a.c);
    && InRange(s, pc)
    && match a
       case Begin(_, _) => pc.Idle?
       case Lookup(_) => pc.Begun?
       case Insert(_) => pc.Missed?
       case Produce(_, _) => pc.Leading?
       case Publish(_) => pc.Computed?
       case Abort(_) => pc.Begun? || pc.Leading? || pc.Waiting?
       case Remove(_) => pc.Closing?
       case Settle(_) => pc.Settling?
       case Check(_) => pc.Found?
       case Recheck(_) => pc.Checked?
       case Register(_) => pc.Cloned?
       case Wake(_) => pc.Waiting? && s.entries[pc.entry].notifies > pc.epoch
       case Read(_) => pc.Woken?
       case Expire(_) => pc.Waiting?
  }

  function Peek(e: Entry, pc: Pc): Pc
    requires pc.Found? || pc.Checked?
  {
    if e.result.Some? then Done(pc.key, e.result.value)
    else if e.cancelled then Done(pc.key, NoReply)
    else if pc.Found? then Checked(pc.key, pc.entry) else Cloned(pc.key, pc.entry)
  }

  /** The end of the guard's drop: a removed entry nobody has settled is marked cancelled. */
  function Cancel(entries: seq<Entry>, removed: Option<nat>): (r: seq<Entry>)
    requires removed.Some? ==> removed.value < |entries|
  {
    if removed.Some? && !entries[removed.value].Settled()
    then var e := entries[removed.value];
         entries[removed.value := e.(cancelled := true, notifies := e.notifies + 1)]
    else entries
  }

  function Next(s: State, a: Action): State
    requires Enabled(s, a)
  {
    var c, pc := a.c, s.Pc(a.c);
    match a
    case Begin(_, key) => s.Go(c, Begun(key))
    case Lookup(_) => s.Go(c, if pc.key in s.inflight then Found(pc.key, s.inflight[pc.key]) else Missed(pc.key))
    case Insert(_) =>
      var id := |s.entries|;
      s.(entries := s.entries + [Entry(pc.key, c, None, false, 0)], inflight := s.inflight[pc.key := id])
       .Go(c, Leading(pc.key, id))
    case Produce(_, reply) =>
      s.(produced := s.produced + {(pc.key, reply)}).Go(c, Computed(pc.key, pc.entry, reply))
    case Publish(_) =>
      var e := s.entries[pc.entry];
      s.(entries := s.entries[pc.entry := e.(result := Some(pc.reply), notifies := e.notifies + 1)])
       .Go(c, Closing(pc.key, pc.entry, Some(pc.reply)))
    case Abort(_) => s.Go(c, if pc.Leading? then Closing(pc.key, pc.entry, None) else Gone)
    case Remove(_) =>
      var removed := if pc.key in s.inflight then Some(s.inflight[pc.key]) else None;
      s.(inflight := s.inflight - {pc.key}).Go(c, Settling(pc.key, removed, pc.outcome))
    case Settle(_) =>
      s.(entries := Cancel(s.entries, pc.removed))
       .Go(c, if pc.outcome.Some? then Done(pc.key, pc.outcome.value) else Gone)
    case Check(_) => s.Go(c, Peek(s.entries[pc.entry], pc))
    case Recheck(_) => s.Go(c, Peek(s.entries[pc.entry], pc))
    case Register(_) => s.Go(c, Waiting(pc.key, pc.entry, s.entries[pc.entry].notifies))
    case Wake(_) => s.Go(c, Woken(pc.key, pc.entry))
    case Read(_) =>
      var e := s.entries[pc.entry];
      s.Go(c, Done(pc.key, if e.cancelled || e.result.None? then NoReply else e.result.value))
    case Expire(_) => s.Go(c, Done(pc.key, NoReply))
  }

  const Init: State := State(map[], [], map[], {})

  ghost predicate Runs(s: State, actions: seq<Action>, s': State)
    decreases |actions|
  {
    if actions == [] then s' == s else Enabled(s, actions[0]) && Runs(Next(s, actions[0]), actions[1..], s')
  }

  ghost predicate Reachable(s: State) { exists actions :: Runs(Init, actions, s) }

  // ----- What every step keeps -----------------------------------------------------------------------

  /** An entry keeps its key, its leader, its notifications and its result. */
  predicate Ages(e: Entry, e': Entry) {
    && e'.key == e.key && e'.leader == e.leader && e'.notifies >= e.notifies
    && (e.result.Some? ==> e'.result.Some?)
  }

  predicate EntryOk(s: State, e: Entry) {
    && (e.result.Some? ==> (e.key, e.result.value) in s.produced)
    && e.notifies == e.Times()
  }

  /** A call knows only entries of its own key, and answers only with what was produced for it. */
  predicate CallOk(s: State, c: nat, pc: Pc) {
    && InRange(s, pc)
    && (pc.Guards() || pc.Watches() ==> s.entries[pc.entry].key == pc.key)
    && (pc.Guards() ==> s.entries[pc.entry].leader == c)
    && (pc.Leading? || pc.Computed? ==> s.entries[pc.entry].result.None?)
    && (pc.Waiting? ==> pc.epoch <= s.entries[pc.entry].notifies)
    && (pc.Computed? ==> (pc.key, pc.reply) in s.produced)
    && ((pc.Closing? || pc.Settling?) && pc.outcome.Some? ==> (pc.key, pc.outcome.value) in s.produced)
    && (pc.Done? ==> pc.reply == NoReply || (pc.key, pc.reply) in s.produced)
  }

  /** An entry in the map belongs to a call that still owns its guard. */
  predicate MappedOk(s: State, key: string) {
    key in s.inflight ==>
      var e := s.inflight[key];
      && e < |s.entries|
      && var pc := s.Pc(s.entries[e].leader);
         pc.Guards() && pc.key == key && pc.entry == e && s.entries[e].key == key
  }

  ghost predicate EntriesOk(s: State) { forall e :: 0 <= e < |s.entries| ==> EntryOk(s, s.entries[e]) }

  ghost predicate CallsOk(s: State) { forall c {:trigger s.Pc(c)} :: CallOk(s, c, s.Pc(c)) }

  ghost predicate MapOk(s: State) { forall key {:trigger MappedOk(s, key)} :: MappedOk(s, key) }

  ghost predicate Invariant(s: State) { EntriesOk(s) && CallsOk(s) && MapOk(s) }

  lemma LeaderOk(s: State, a: Action)
    requires Enabled(s, a) && Invariant(s) && !s.Pc(a.c).Watches()
    ensures CallOk(Next(s, a), a.c, Next(s, a).Pc(a.c))
  {
    var pc := s.Pc(a.c);
    assert CallOk(s, a.c, pc);
    if pc.Begun? || pc.Closing? { assert MappedOk(s, pc.key); }
  }

  lemma WatcherOk(s: State, a: Action)
    requires Enabled(s, a) && Invariant(s) && s.Pc(a.c).Watches()
    ensures CallOk(Next(s, a), a.c, Next(s, a).Pc(a.c))
  {
    var pc := s.Pc(a.c);
    assert CallOk(s, a.c, pc) && EntryOk(s, s.entries[pc.entry]);
  }

  lemma StepCalls(s: State, a: Action)
    requires Enabled(s, a) && Invariant(s)
    ensures CallsOk(Next(s, a))
  {
    var s' := Next(s, a);
    forall c ensures CallOk(s', c, s'.Pc(c)) {
      if c == a.c {
        if s.Pc(c).Watches() { WatcherOk(s, a); } else { LeaderOk(s, a); }
      } else {
        assert CallOk(s, c, s.Pc(c));
      }
    }
  }

  lemma StepMap(s: State, a: Action)
    requires Enabled(s, a) && Invariant(s)
    ensures MapOk(Next(s, a))
  {
    var s' := Next(s, a);
    assert CallOk(s, a.c, s.Pc(a.c));
    forall key ensures MappedOk(s', key) {
      assert MappedOk(s, key);
      if key in s'.inflight && key in s.inflight && s'.inflight[key] == s.inflight[key] {
        assert Ages(s.entries[s.inflight[key]], s'.entries[s.inflight[key]]);
      }
    }
  }

  lemma StepInvariant(s: State, a: Action)
    requires Enabled(s, a) && Invariant(s)
    ensures Invariant(Next(s, a))
  {
    StepCalls(s, a);
    StepMap(s, a);
  }

  lemma {:induction false} InvariantHolds(s: State, actions: seq<Action>, s': State)
    requires Invariant(s) && Runs(s, actions, s')
    ensures Invariant(s')
    decreases |actions|
  {
    if actions != [] {
      StepInvariant(s, actions[0]);
      InvariantHolds(Next(s, actions[0]), actions[1..], s');
    }
  }

  // ----- Main results over all runs -------------------------------------------------------------------

  lemma AlwaysOk(s: State)
    requires Reachable(s)
    ensures Invariant(s)
  {
    var actions :| Runs(Init, actions, s);
    InvariantHolds(Init, actions, s);
  }

  /** Every entry in the map belongs to a call for that key that is still running. */
  lemma MappedIsLive(s: State, key: string)
    requires Reachable(s) && key in s.inflight
    ensures s.inflight[key] < |s.entries|
    ensures var pc := s.Pc(s.entries[s.inflight[key]].leader); !pc.Over() && pc.Guards() && pc.key == key
  {
    AlwaysOk(s);
    assert MappedOk(s, key);
  }

  /** Whatever was cancelled or timed out on the way: when no call runs, nothing is left behind. */
  lemma NoLeftovers(s: State)
    requires Reachable(s) && forall c :: s.Pc(c).Over()
    ensures s.inflight == map[]
  {
    forall key | key in s.inflight ensures false { MappedIsLive(s, key); }
  }

  /** An answer is either the empty default or was produced by a dispatch for the very same key. */
  lemma AnswersFitTheKey(s: State, c: nat)
    requires Reachable(s) && s.Pc(c).Done?
    ensures s.Pc(c).reply == NoReply || (s.Pc(c).key, s.Pc(c).reply) in s.produced
  {
    AlwaysOk(s);
    assert CallOk(s, c, s.Pc(c));
  }

  /** A waiter is due to wake up exactly when its entry was settled after it registered: either it
      registered before the entry was first settled, or the reply came after a cancellation it had missed. */
  lemma WakeUpIsDueIff(s: State, c: nat)
    requires Reachable(s) && s.Pc(c).Waiting?
    ensures s.Pc(c).entry < |s.entries|
    ensures var e := s.entries[s.Pc(c).entry];
            Enabled(s, Wake(c)) <==>
              (s.Pc(c).epoch == 0 && e.Settled()) || (s.Pc(c).epoch == 1 && e.result.Some? && e.cancelled)
  {
    AlwaysOk(s);
    assert CallOk(s, c, s.Pc(c)) && EntryOk(s, s.entries[s.Pc(c).entry]);
  }

  // ----- One leader per key, exactly if no insert overwrites ---------------------------------------------------

  /** An insert still finds its key absent from the map, as the lookup did. */
  predicate Orderly(s: State, a: Action) { a.Insert? && s.Pc(a.c).Missed? ==> s.Pc(a.c).key !in s.inflight }

  ghost predicate OrderlyRuns(s: State, actions: seq<Action>, s': State)
    decreases |actions|
  {
    if actions == [] then s' == s
    else Enabled(s, actions[0]) && Orderly(s, actions[0]) && OrderlyRuns(Next(s, actions[0]), actions[1..], s')
  }

  predicate SoloCall(s: State, c: nat, pc: Pc)
    requires InRange(s, pc)
  {
    && (pc.Guards() ==> pc.key in s.inflight && s.inflight[pc.key] == pc.entry)
    && (pc.Closing? && pc.outcome.Some? ==> s.entries[pc.entry].result.Some?)
    && (pc.Settling? ==>
          && pc.removed.Some? && s.entries[pc.removed.value].leader == c
          && (pc.outcome.Some? ==> s.entries[pc.removed.value].result.Some?))
  }

  predicate CancelOk(s: State, e: Entry) { e.cancelled ==> s.Pc(e.leader).Gone? && e.result.None? }

  ghost predicate SoloCalls(s: State)
    requires CallsOk(s)
  {
    forall c {:trigger s.Pc(c)} :: SoloCall(s, c, s.Pc(c))
  }

  ghost predicate CancelsOk(s: State) { forall e :: 0 <= e < |s.entries| ==> CancelOk(s, s.entries[e]) }

  ghost predicate Solo(s: State) { Invariant(s) && SoloCalls(s) && CancelsOk(s) }

  /** The others: their map entry is still theirs after the step of `a.c`. */
  lemma SoloOthers(s: State, a: Action, c: nat)
    requires Enabled(s, a) && Solo(s) && Orderly(s, a) && c != a.c && CallOk(Next(s, a), c, s.Pc(c))
    ensures SoloCall(Next(s, a), c, s.Pc(c))
  {
    var pc, mover := s.Pc(c), s.Pc(a.c);
    assert SoloCall(s, c, pc) && CallOk(s, c, pc);
    assert SoloCall(s, a.c, mover) && CallOk(s, a.c, mover);
    if pc.Closing? { assert Ages(s.entries[pc.entry], Next(s, a).entries[pc.entry]); }
    if pc.Settling? { assert Ages(s.entries[pc.removed.value], Next(s, a).entries[pc.removed.value]); }
  }

  lemma SoloMover(s: State, a: Action)
    requires Enabled(s, a) && Solo(s) && Orderly(s, a) && CallOk(Next(s, a), a.c, Next(s, a).Pc(a.c))
    ensures SoloCall(Next(s, a), a.c, Next(s, a).Pc(a.c))
  {
    assert SoloCall(s, a.c, s.Pc(a.c)) && CallOk(s, a.c, s.Pc(a.c));
  }

  lemma SoloCancels(s: State, a: Action)
    requires Enabled(s, a) && Solo(s)
    ensures CancelsOk(Next(s, a))
  {
    var pc, s' := s.Pc(a.c), Next(s, a);
    assert SoloCall(s, a.c, pc) && CallOk(s, a.c, pc);
    forall e | 0 <= e < |s'.entries| ensures CancelOk(s', s'.entries[e]) {
      assert e < |s.entries| ==> CancelOk(s, s.entries[e]);
    }
  }

  lemma SoloStep(s: State, a: Action)
    requires Enabled(s, a) && Solo(s) && Orderly(s, a)
    ensures Solo(Next(s, a))
  {
    var s' := Next(s, a);
    StepInvariant(s, a);
    forall c ensures SoloCall(s', c, s'.Pc(c)) {
      assert CallOk(s', c, s'.Pc(c));
      if c == a.c { SoloMover(s, a); } else { SoloOthers(s, a, c); }
    }
    SoloCancels(s, a);
  }

  lemma {:induction false} SoloHolds(s: State, actions: seq<Action>, s': State)
    requires Solo(s) && OrderlyRuns(s, actions, s')
    ensures Solo(s')
    decreases |actions|
  {
    if actions != [] {
      SoloStep(s, actions[0]);
      SoloHolds(Next(s, actions[0]), actions[1..], s');
    }
  }

  /** At most one call holds the guard for any key. */
  ghost predicate SoleLeaders(s: State) {
    forall c, d {:trigger s.Pc(c), s.Pc(d)} ::
      s.Pc(c).Guards() && s.Pc(d).Guards() && s.Pc(c).key == s.Pc(d).key ==> c == d
  }

  /** ... in every state of a run. */
  ghost predicate AlwaysSole(s: State, actions: seq<Action>)
    decreases |actions|
  {
    SoleLeaders(s) && (actions != [] && Enabled(s, actions[0]) ==> AlwaysSole(Next(s, actions[0]), actions[1..]))
  }

  lemma SoloIsSole(s: State)
    requires Solo(s)
    ensures SoleLeaders(s)
  {
    forall c, d | s.Pc(c).Guards() && s.Pc(d).Guards() && s.Pc(c).key == s.Pc(d).key ensures c == d {
      assert SoloCall(s, c, s.Pc(c)) && CallOk(s, c, s.Pc(c));
      assert SoloCall(s, d, s.Pc(d)) && CallOk(s, d, s.Pc(d));
    }
  }

  /** An insert that overwrites an entry makes a second leader: the first is still running. */
  lemma OverwriteMakesTwo(s: State, a: Action)
    requires Invariant(s) && Enabled(s, a) && !Orderly(s, a)
    ensures !SoleLeaders(Next(s, a))
  {
    var key, s' := s.Pc(a.c).key, Next(s, a);
    assert MappedOk(s, key);
    var d := s.entries[s.inflight[key]].leader;
    assert s'.Pc(d) == s.Pc(d) && s'.Pc(a.c).Guards() && s'.Pc(a.c).key == key;
  }

  lemma {:induction false} OneLeaderFrom(s: State, actions: seq<Action>, s': State)
    requires Solo(s) && Runs(s, actions, s')
    ensures AlwaysSole(s, actions) <==> OrderlyRuns(s, actions, s')
    decreases |actions|
  {
    SoloIsSole(s);
    if actions != [] {
      var a := actions[0];
      if Orderly(s, a) {
        SoloStep(s, a);
        OneLeaderFrom(Next(s, a), actions[1..], s');
      } else {
        OverwriteMakesTwo(s, a);
      }
    }
  }

  /** In a run at most one call at a time dispatches for any key exactly if every insert still finds its
      key absent from the map. */
  lemma OneLeaderIff(actions: seq<Action>, s: State)
    requires Runs(Init, actions, s)
    ensures AlwaysSole(Init, actions) <==> OrderlyRuns(Init, actions, s)
  {
    OneLeaderFrom(Init, actions, s);
  }

  /** ... and an entry is cancelled only because its own leader was. */
  lemma CancelledByOwnLeader(actions: seq<Action>, s: State, e: nat)
    requires OrderlyRuns(Init, actions, s) && e < |s.entries| && s.entries[e].cancelled
    ensures s.Pc(s.entries[e].leader).Gone? && s.entries[e].result.None?
  {
    SoloHolds(Init, actions, s);
    assert CancelOk(s, s.entries[e]);
  }

  /** ... and a watcher that registers after its entry was settled is never due to wake up. */
  lemma LateNeverWakes(actions: seq<Action>, s: State, c: nat)
    requires OrderlyRuns(Init, actions, s) && s.Pc(c).Waiting? && s.Pc(c).epoch > 0
    ensures !Enabled(s, Wake(c))
  {
    SoloHolds(Init, actions, s);
    assert CallOk(s, c, s.Pc(c));
    var e := s.entries[s.Pc(c).entry];
    assert EntryOk(s, e) && CancelOk(s, e);
  }

  // ----- With the gap -----------------------------------------------------------------------------------------

  lemma {:induction false} RunsOn(s: State, actions: seq<Action>, s': State, a: Action)
    requires Runs(s, actions, s') && Enabled(s', a)
    ensures Runs(s, actions + [a], Next(s', a))
    decreases |actions|
  {
    if actions == [] {
      assert [a][1..] == [] && Runs(Next(s', a), [], Next(s', a));
    } else {
      assert (actions + [a])[1..] == actions[1..] + [a];
      RunsOn(Next(s, actions[0]), actions[1..], s', a);
    }
  }

  predicate Leads(s: State, a: Action, s': State) { Enabled(s, a) && s' == Next(s, a) }

  /** A run continued along a path. */
  lemma {:induction false} Reach(before: seq<Action>, path: seq<State>, actions: seq<Action>)
    requires |path| == |actions| + 1 && Runs(Init, before, path[0])
    requires forall i :: 0 <= i < |actions| ==> Leads(path[i], actions[i], path[i + 1])
    ensures Runs(Init, before + actions, path[|actions|])
  {
    if actions == [] {
      assert before + actions == before;
    } else {
      var n := |actions| - 1;
      Reach(before, path[..n + 1], actions[..n]);
      assert Leads(path[n], actions[n], path[n + 1]);
      RunsOn(Init, before + actions[..n], path[n], actions[n]);
      assert before + actions[..n] + [actions[n]] == before + actions;
    }
  }

  function BothMiss(key: string): seq<State> {
    [Init,
     State(map[], [], map[0 := Begun(key)], {}),
     State(map[], [], map[0 := Missed(key)], {}),
     State(map[], [], map[0 := Missed(key), 1 := Begun(key)], {}),
     State(map[], [], map[0 := Missed(key), 1 := Missed(key)], {})]
  }

  lemma OneMissReachable(key: string) returns (actions: seq<Action>)
    ensures Runs(Init, actions, BothMiss(key)[3])
  {
    var path := BothMiss(key)[..4];
    assert Leads(path[0], Begin(0, key), path[1]);
    assert Leads(path[1], Lookup(0), path[2]);
    assert Leads(path[2], Begin(1, key), path[3]);
    actions := [] + [Begin(0, key), Lookup(0), Begin(1, key)];
    Reach([], path, [Begin(0, key), Lookup(0), Begin(1, key)]);
  }

  lemma BothMissReachable(key: string) returns (actions: seq<Action>)
    ensures Runs(Init, actions, BothMiss(key)[4])
  {
    var before := OneMissReachable(key);
    assert Leads(BothMiss(key)[3], Lookup(1), BothMiss(key)[4]);
    RunsOn(Init, before, BothMiss(key)[3], Lookup(1));
    actions := before + [Lookup(1)];
  }

  function TwoLead(key: string): seq<State> {
    [BothMiss(key)[4],
     State(map[key := 0], [Entry(key, 0, None, false, 0)], map[0 := Leading(key, 0), 1 := Missed(key)], {}),
     State(map[key := 1], [Entry(key, 0, None, false, 0), Entry(key, 1, None, false, 0)],
           map[0 := Leading(key, 0), 1 := Leading(key, 1)], {})]
  }

  /** When two calls both look a key up before either inserts, both dispatch. */
  lemma TwoLeaders(key: string) returns (actions: seq<Action>, s: State)
    ensures Runs(Init, actions, s) && s == TwoLead(key)[2]
    ensures s.Pc(0) == Leading(key, 0) && s.Pc(1) == Leading(key, 1)
  {
    var before := BothMissReachable(key);
    var path := TwoLead(key);
    assert Leads(path[0], Insert(0), path[1]);
    assert Leads(path[1], Insert(1), path[2]);
    actions, s := before + [Insert(0), Insert(1)], path[2];
    Reach(before, path, [Insert(0), Insert(1)]);
  }

  /** Two calls lead one key and the one whose entry was overwritten is about to clean up. */
  predicate Overwritten(s: State, c: nat, d: nat) {
    && c != d && s.Pc(c).Closing? && s.Pc(d).Leading? && s.Pc(c).key == s.Pc(d).key
    && s.Pc(d).key in s.inflight && s.inflight[s.Pc(d).key] == s.Pc(d).entry
    && s.Pc(d).entry < |s.entries| && !s.entries[s.Pc(d).entry].Settled()
  }

  /** This happens, for every key: the first of two leaders is cancelled by its client. */
  lemma OverwrittenReachable(key: string) returns (s: State)
    ensures Reachable(s) && Overwritten(s, 0, 1) && s.Pc(0).key == key
  {
    var actions, s0 := TwoLeaders(key);
    s := s0.(pcs := map[0 := Closing(key, 0, None), 1 := Leading(key, 1)]);
    assert Leads(s0, Abort(0), s);
    RunsOn(Init, actions, s0, Abort(0));
  }

  /** Whenever two calls lead the same key, the one that is not in the map and finishes first removes and
      cancels the other's entry, though that call is still running and was never cancelled itself. */
  lemma BystanderCancelled(s: State, c: nat, d: nat)
    requires Reachable(s) && Overwritten(s, c, d)
    ensures Enabled(s, Remove(c)) && Enabled(Next(s, Remove(c)), Settle(c))
    ensures var s' := Next(Next(s, Remove(c)), Settle(c));
            && s'.Pc(d) == s.Pc(d) && s.Pc(d).key !in s'.inflight
            && s'.entries[s.Pc(d).entry].cancelled && s'.entries[s.Pc(d).entry].result.None?
  {
    AlwaysOk(s);
    assert CallOk(s, c, s.Pc(c));
  }

  /** A leader has its reply and a watcher of the same entry has checked twice but not yet registered. */
  predicate InTheGap(s: State, c: nat, w: nat) {
    s.Pc(c).Computed? && s.Pc(w).Cloned? && s.Pc(c).entry == s.Pc(w).entry
  }

  function OneEntry(key: string, leader: Pc, watcher: Pc, produced: set<(string, Reply)>): State {
    State(map[key := 0], [Entry(key, 0, None, false, 0)], map[0 := leader, 1 := watcher], produced)
  }

  lemma JoiningReachable(key: string) returns (actions: seq<Action>)
    ensures Runs(Init, actions, OneEntry(key, Leading(key, 0), Begun(key), {}))
  {
    var before := OneMissReachable(key);
    assert Leads(BothMiss(key)[3], Insert(0), OneEntry(key, Leading(key, 0), Begun(key), {}));
    RunsOn(Init, before, BothMiss(key)[3], Insert(0));
    actions := before + [Insert(0)];
  }

  function Checking(key: string): seq<State> {
    [OneEntry(key, Leading(key, 0), Begun(key), {}),
     OneEntry(key, Leading(key, 0), Found(key, 0), {}),
     OneEntry(key, Leading(key, 0), Checked(key, 0), {}),
     OneEntry(key, Leading(key, 0), Cloned(key, 0), {})]
  }

  lemma CheckingSteps(key: string)
    ensures Leads(Checking(key)[0], Lookup(1), Checking(key)[1])
    ensures Leads(Checking(key)[1], Check(1), Checking(key)[2])
    ensures Leads(Checking(key)[2], Recheck(1), Checking(key)[3])
  {
  }

  lemma CheckingReachable(key: string) returns (actions: seq<Action>)
    ensures Runs(Init, actions, Checking(key)[3])
  {
    var before := JoiningReachable(key);
    CheckingSteps(key);
    actions := before + [Lookup(1), Check(1), Recheck(1)];
    Reach(before, Checking(key), [Lookup(1), Check(1), Recheck(1)]);
  }

  /** This happens too, for every key and reply. */
  lemma GapReachable(key: string, reply: Reply) returns (s: State)
    ensures Reachable(s) && InTheGap(s, 0, 1) && s.Pc(0) == Computed(key, 0, reply)
  {
    var actions := CheckingReachable(key);
    var s0 := Checking(key)[3];
    s := OneEntry(key, Computed(key, 0, reply), Cloned(key, 0), {(key, reply)});
    assert Leads(s0, Produce(0, reply), s);
    RunsOn(Init, actions, s0, Produce(0, reply));
  }

  /** Whenever a reply is published between a watcher's second check and its registration, it goes
      unnoticed: the entry has its result, no wake-up is due, and only the timeout is left. */
  lemma MissedWakeUp(s: State, c: nat, w: nat)
    requires Reachable(s) && InTheGap(s, c, w)
    ensures Enabled(s, Publish(c)) && Enabled(Next(s, Publish(c)), Register(w))
    ensures var s' := Next(Next(s, Publish(c)), Register(w));
            && s'.Pc(w).Waiting? && s'.entries[s'.Pc(w).entry].result == Some(s.Pc(c).reply)
            && !Enabled(s', Wake(w)) && Enabled(s', Expire(w))
            && Next(s', Expire(w)).Pc(w) == Done(s.Pc(w).key, NoReply)
  {
    AlwaysOk(s);
    assert CallOk(s, c, s.Pc(c)) && CallOk(s, w, s.Pc(w));
  }
}
