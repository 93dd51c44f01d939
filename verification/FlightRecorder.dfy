/**
 The batching audit writer (crates/cache-storage/src/flight_recorder.rs, background_writer) over every
 schedule of receive outcomes. Database errors are not modelled: a batch handed over counts as flushed.
 */
module FlightRecorder {

  const BATCH_SIZE: nat := 64

  datatype Record = Record(text: string)

  /** What a receive returns. `Nothing` is a timeout of the blocking receive or an empty queue. */
  datatype Received = Command(rec: Record) | Shutdown | Nothing | Disconnected

  /** Which receive comes next: the blocking one, or the one that drains the queue. */
  datatype Mode = Blocking | Draining | Exited

  datatype Writer = Writer(flushed: seq<seq<Record>>, batch: seq<Record>, mode: Mode)

  // ----- The step machine -----------------------------------------------------------------------------

  function Flush(w: Writer): Writer { w.(flushed := w.flushed + [w.batch], batch := []) }

  function FlushPending(w: Writer): Writer { if w.batch == [] then w else Flush(w) }

  function Drain(w: Writer): Writer { w.(mode := if |w.batch| < BATCH_SIZE then Draining else Blocking) }

  function Step(w: Writer, r: Received): Writer {
    match w.mode
    case Exited => w
    case Blocking => (
      match r
      case Command(rec) =>
        var w' := w.(batch := w.batch + [rec]);
        Drain(if |w'.batch| >= BATCH_SIZE then Flush(w') else w')
      case Nothing => Drain(FlushPending(w))
      case _ => FlushPending(w).(mode := Exited))
    case Draining => (
      match r
      case Command(rec) => Drain(w.(batch := w.batch + [rec]))
      case Nothing => w.(mode := Blocking)
      case _ => Flush(w).(mode := Exited))
  }

  function Play(w: Writer, schedule: seq<Received>): Writer
    decreases |schedule|
  {
    if schedule == [] then w else Play(Step(w, schedule[0]), schedule[1..])
  }

  const Fresh: Writer := Writer([], [], Blocking)

  // ----- The writer itself -------------------------------------------------------------------------------

  /** Runs until the writer exits or the schedule is used up. */
  method BackgroundWriter(schedule: seq<Received>) returns (flushed: seq<seq<Record>>, batch: seq<Record>, exited: bool)
    ensures var w := Play(Fresh, schedule);
            flushed == w.flushed && batch == w.batch && (exited <==> w.mode == Exited)
  {
    flushed, batch, exited := [], [], false;
    var left := schedule;
    ghost var mode := Blocking;
    while left != []
      invariant mode != Exited && (left != [] ==> mode == Blocking)
      invariant Play(Writer(flushed, batch, mode), left) == Play(Fresh, schedule)
      decreases |left|
    {
      var r := left[0];
      left := left[1..];
      var timeoutReached := true;
      if r.Shutdown? || r.Disconnected? {
        if batch != [] { flushed, batch := flushed + [batch], []; }
        StaysExited(Writer(flushed, batch, Exited), left);
        return flushed, batch, true;
      }
      if r.Command? {
        batch := batch + [r.rec];
        timeoutReached := |batch| >= BATCH_SIZE;
      }
      if timeoutReached && batch != [] { flushed, batch := flushed + [batch], []; }

      var empty := false;
      mode := Drain(Writer(flushed, batch, Blocking)).mode;
      while !empty && |batch| < BATCH_SIZE && left != []
        invariant mode == if empty then Blocking else Drain(Writer(flushed, batch, Blocking)).mode
        invariant Play(Writer(flushed, batch, mode), left) == Play(Fresh, schedule)
        decreases |left|
      {
        var d := left[0];
        left := left[1..];
        if d.Nothing? {
          empty, mode := true, Blocking;
        } else if d.Command? {
          batch := batch + [d.rec];
          mode := Drain(Writer(flushed, batch, Blocking)).mode;
        } else {
          flushed, batch := flushed + [batch], [];
          StaysExited(Writer(flushed, batch, Exited), left);
          return flushed, batch, true;
        }
      }
    }
  }

  lemma {:induction false} StaysExited(w: Writer, schedule: seq<Received>)
    requires w.mode == Exited
    ensures Play(w, schedule) == w
    decreases |schedule|
  {
    if schedule != [] { StaysExited(w, schedule[1..]); }
  }

  // ----- First in, first out, exactly once -----------------------------------------------------------------

  function Concat(batches: seq<seq<Record>>): seq<Record> {
    if batches == [] then [] else Concat(batches[..|batches| - 1]) + batches[|batches| - 1]
  }

  /** Everything received so far, in order. */
  function Taken(w: Writer): seq<Record> { Concat(w.flushed) + w.batch }

  lemma StepTakes(w: Writer, r: Received)
    ensures Taken(Step(w, r)) == Taken(w) + if r.Command? && w.mode != Exited then [r.rec] else []
  {
    if r.Command? {
      var w' := w.(batch := w.batch + [r.rec]);
      assert Taken(w') == Taken(w) + [r.rec];
    }
  }

  predicate Stops(r: Received) { r.Shutdown? || r.Disconnected? }

  /** The records a running writer receives: those before the first shutdown or disconnect. */
  function Delivered(schedule: seq<Received>): seq<Record> {
    if schedule == [] || Stops(schedule[0]) then []
    else (if schedule[0].Command? then [schedule[0].rec] else []) + Delivered(schedule[1..])
  }

  /** What was flushed, followed by what is pending, is what was received: nothing lost, doubled or
      reordered; and the writer exits at the first shutdown or disconnect. */
  lemma {:induction false} FifoExactlyOnce(w: Writer, schedule: seq<Received>)
    requires w.mode != Exited
    ensures Taken(Play(w, schedule)) == Taken(w) + Delivered(schedule)
    ensures Play(w, schedule).mode == Exited <==> exists i :: 0 <= i < |schedule| && Stops(schedule[i])
    decreases |schedule|
  {
    if schedule != [] {
      var r, rest := schedule[0], schedule[1..];
      StepTakes(w, r);
      assert forall i :: 0 <= i < |rest| ==> rest[i] == schedule[i + 1];
      if Stops(r) {
        StaysExited(Step(w, r), rest);
      } else {
        FifoExactlyOnce(Step(w, r), rest);
        assert forall i :: 0 < i < |schedule| ==> schedule[i] == rest[i - 1];
      }
    }
  }

  predicate Sane(w: Writer) {
    && (w.mode == Exited ==> w.batch == [])
    && (w.mode == Blocking ==> |w.batch| <= BATCH_SIZE)
    && (w.mode == Draining ==> |w.batch| < BATCH_SIZE)
    && forall i :: 0 <= i < |w.flushed| ==> |w.flushed[i]| <= BATCH_SIZE + 1
  }

  lemma {:induction false} AlwaysSane(w: Writer, schedule: seq<Received>)
    requires Sane(w)
    ensures Sane(Play(w, schedule))
    decreases |schedule|
  {
    if schedule != [] { AlwaysSane(Step(w, schedule[0]), schedule[1..]); }
  }

  /** Nothing is pending once the writer has exited: all that was received has been flushed. */
  lemma NothingLost(schedule: seq<Received>)
    requires Play(Fresh, schedule).mode == Exited
    ensures Concat(Play(Fresh, schedule).flushed) == Delivered(schedule)
  {
    AlwaysSane(Fresh, schedule);
    FifoExactlyOnce(Fresh, schedule);
    var w := Play(Fresh, schedule);
    assert Taken(Fresh) == [] && Taken(w) == Concat(w.flushed);
  }

  /** No batch exceeds the nominal size by more than one record. */
  lemma BatchBound(schedule: seq<Received>, i: nat)
    requires i < |Play(Fresh, schedule).flushed|
    ensures |Play(Fresh, schedule).flushed[i]| <= BATCH_SIZE + 1
  {
    AlwaysSane(Fresh, schedule);
  }

  function Commands(recs: seq<Record>): (schedule: seq<Received>)
    ensures |schedule| == |recs| && forall i :: 0 <= i < |recs| ==> schedule[i] == Command(recs[i])
  {
    seq(|recs|, i requires 0 <= i < |recs| => Command(recs[i]))
  }

  lemma {:induction false} Fill(w: Writer, recs: seq<Record>, tail: seq<Received>)
    requires w.mode == Draining && |w.batch| + |recs| == BATCH_SIZE && recs != []
    ensures Play(w, Commands(recs) + tail) == Play(w.(batch := w.batch + recs, mode := Blocking), tail)
    decreases |recs|
  {
    var all := Commands(recs) + tail;
    assert all[1..] == Commands(recs[1..]) + tail;
    var w' := Step(w, Command(recs[0]));
    if |recs| > 1 {
      assert w.batch + [recs[0]] + recs[1..] == w.batch + recs;
      Fill(w', recs[1..], tail);
    } else {
      assert Commands(recs[1..]) + tail == tail;
      assert w.batch + recs == w.batch + [recs[0]];
    }
  }

  /** ... and a busy queue does produce batches of that size. */
  lemma OversizeBatch(recs: seq<Record>)
    requires |recs| == BATCH_SIZE + 1
    ensures Play(Fresh, Commands(recs)).flushed == [recs]
  {
    var middle, last := recs[1..BATCH_SIZE], Command(recs[BATCH_SIZE]);
    var w := Step(Fresh, Command(recs[0]));
    assert Commands(recs)[1..] == Commands(middle) + [last];
    Fill(w, middle, [last]);
    assert w.batch + middle + [recs[BATCH_SIZE]] == recs;
    assert [last][1..] == [];
  }

  /** An empty batch is handed over exactly when the writer is stopped right after a flush, before it has seen the
      queue run empty. */
  lemma EmptyBatchIff(w: Writer, r: Received)
    requires w.mode != Exited
    ensures Step(w, r).flushed == w.flushed + [[]] <==> Stops(r) && w.mode == Draining && w.batch == []
  {
    if Step(w, r).flushed == w.flushed + [[]] { assert Step(w, r).flushed[|w.flushed|] == []; }
  }

  predicate NonEmpty(batches: seq<seq<Record>>) { forall i :: 0 <= i < |batches| ==> batches[i] != [] }

  /** ... so that at most the last batch of a writer that has exited is empty. */
  lemma {:induction false} OnlyLastEmpty(w: Writer, schedule: seq<Received>)
    requires w.mode != Exited && NonEmpty(w.flushed)
    ensures var w' := Play(w, schedule);
            NonEmpty(w'.flushed) || (w'.mode == Exited && NonEmpty(w'.flushed[..|w'.flushed| - 1]))
    decreases |schedule|
  {
    if schedule != [] {
      var next := Step(w, schedule[0]);
      if next.mode == Exited {
        StaysExited(next, schedule[1..]);
        assert |next.flushed| > |w.flushed| ==> next.flushed[..|next.flushed| - 1] == w.flushed;
      } else {
        OnlyLastEmpty(next, schedule[1..]);
      }
    }
  }

  // ----- Delay -----------------------------------------------------------------------------------------------

  /** How many more receives the pending records can have to wait through before they are flushed. */
  function Wait(w: Writer): nat
    requires Sane(w)
  {
    if w.batch == [] then 0
    else if w.mode == Draining then 2 * (BATCH_SIZE - |w.batch|)
    else if |w.batch| == BATCH_SIZE then 1
    else 2 * (BATCH_SIZE - |w.batch|) - 1
  }

  lemma StepHurries(w: Writer, r: Received)
    requires Sane(w) && w.mode != Exited && w.batch != []
    ensures Sane(Step(w, r))
    ensures var w' := Step(w, r);
            Concat(w'.flushed) == Concat(w.flushed) + w.batch + (if w'.mode != Exited && r.Command? then [r.rec] else [])
            || (w'.mode != Exited && w'.batch != [] && w'.flushed == w.flushed && Wait(w') < Wait(w))
  {
    var w' := Step(w, r);
    if w'.flushed != w.flushed { assert w'.flushed[..|w'.flushed| - 1] == w.flushed; }
  }

  lemma {:induction false} FlushedGrows(w: Writer, schedule: seq<Received>)
    ensures Concat(w.flushed) <= Concat(Play(w, schedule).flushed)
    decreases |schedule|
  {
    if schedule != [] {
      var w' := Step(w, schedule[0]);
      FlushedGrows(w', schedule[1..]);
    }
  }

  /** Whatever the next receives return, after `Wait` of them everything that was pending is flushed: no
      record waits for more than 126. */
  lemma {:induction false} FlushedInTime(w: Writer, schedule: seq<Received>)
    requires Sane(w) && w.mode != Exited && |schedule| >= Wait(w)
    ensures Taken(w) <= Concat(Play(w, schedule).flushed)
    ensures Wait(w) <= 2 * (BATCH_SIZE - 1)
    decreases |schedule|
  {
    if w.batch == [] {
      FlushedGrows(w, schedule);
    } else {
      var r, rest := schedule[0], schedule[1..];
      var w' := Step(w, r);
      StepHurries(w, r);
      if w'.flushed == w.flushed {
        StepTakes(w, r);
        FlushedInTime(w', rest);
      } else {
        FlushedGrows(w', rest);
      }
    }
  }

  /** Receives that put off the next flush as long as possible: one command, one empty queue, in turn. */
  function PutOff(w: Writer, rec: Record): (schedule: seq<Received>)
    requires Sane(w) && w.mode != Exited && w.batch != []
    ensures |schedule| == Wait(w) - 1
    decreases Wait(w)
  {
    if Wait(w) == 1 then []
    else
      var r := if w.mode == Draining then Nothing else Command(rec);
      [r] + PutOff(Step(w, r), rec)
  }

  /** The delay is exact: from every state with pending records some schedule of one receive less flushes
      nothing. A record that is alone in its batch can have to wait for all 126. */
  lemma {:induction false} WaitIsLeast(w: Writer, rec: Record)
    requires Sane(w) && w.mode != Exited && w.batch != []
    ensures var w' := Play(w, PutOff(w, rec)); w'.flushed == w.flushed && w.batch <= w'.batch
    ensures w.mode == Draining && |w.batch| == 1 ==> Wait(w) == 2 * (BATCH_SIZE - 1)
    decreases Wait(w)
  {
    if Wait(w) > 1 {
      var r := if w.mode == Draining then Nothing else Command(rec);
      assert PutOff(w, rec)[1..] == PutOff(Step(w, r), rec);
      WaitIsLeast(Step(w, r), rec);
    }
  }
}
