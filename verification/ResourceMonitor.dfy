/**
 Per-address request monitoring (crates/core/src/security/capabilities.rs,
 ResourceMonitor::check_and_record_request): a window starts with the first request of an address and
 the requests beyond the threshold are flagged until the window ends.
 */
module ResourceMonitor {
  import opened Basics

  datatype Limits = Limits(threshold: nat, window: real)

  datatype Tracker = Tracker(count: nat, firstRequestAt: real)

  type Trackers = map<string, Tracker>

  datatype Request = Request(ip: string, time: real)

  predicate Open(c: Limits, t: Tracker, now: real) { now - t.firstRequestAt < c.window }

  function Retained(c: Limits, trackers: Trackers, now: real): Trackers {
    map ip | ip in trackers && Open(c, trackers[ip], now) :: trackers[ip]
  }

  /** The tracker of an address once a request at `now` has been counted. */
  function Counted(c: Limits, t: Option<Tracker>, now: real): Tracker {
    if t.Some? && Open(c, t.value, now) then Tracker(t.value.count + 1, t.value.firstRequestAt) else Tracker(1, now)
  }

  predicate Flagged(c: Limits, t: Tracker, now: real) { t.count > c.threshold && Open(c, t, now) }

  function Get(trackers: Trackers, ip: string): Option<Tracker> {
    if ip in trackers then Some(trackers[ip]) else None
  }

  function Record(c: Limits, trackers: Trackers, r: Request): Trackers {
    Retained(c, trackers, r.time)[r.ip := Counted(c, Get(trackers, r.ip), r.time)]
  }

  class ResourceMonitor {
    const limits: Limits
    var requests: Trackers

    constructor (limits: Limits)
      ensures this.limits == limits && requests == map[]
    {
      this.limits := limits;
      requests := map[];
    }

    method CheckAndRecordRequest(ip: string, now: real) returns (threat: bool)
      modifies this
      ensures requests == Record(limits, old(requests), Request(ip, now))
      ensures threat == Flagged(limits, requests[ip], now)
    {
      requests := Retained(limits, requests, now);
      if ip !in requests { requests := requests[ip := Tracker(0, now)]; }
      requests := requests[ip := requests[ip].(count := requests[ip].count + 1)];
      threat := requests[ip].count > limits.threshold && now - requests[ip].firstRequestAt < limits.window;
    }
  }

  // ----- Runs -------------------------------------------------------------------------------------------

  /** Which requests of a run are flagged. */
  function Answers(c: Limits, trackers: Trackers, trace: seq<Request>): (flags: seq<bool>)
    ensures |flags| == |trace|
    decreases |trace|
  {
    if trace == [] then []
    else
      var next := Record(c, trackers, trace[0]);
      [Flagged(c, next[trace[0].ip], trace[0].time)] + Answers(c, next, trace[1..])
  }

  /** The same for one address on its own: no map, no cleanup, no neighbours. */
  function SoloAnswers(c: Limits, t: Option<Tracker>, times: seq<real>): (flags: seq<bool>)
    ensures |flags| == |times|
    decreases |times|
  {
    if times == [] then []
    else
      var next := Counted(c, t, times[0]);
      [Flagged(c, next, times[0])] + SoloAnswers(c, Some(next), times[1..])
  }

  predicate Clocked(now: real, times: seq<real>)
    decreases |times|
  {
    times == [] || (now <= times[0] && Clocked(times[0], times[1..]))
  }

  function Times(trace: seq<Request>): (times: seq<real>)
    ensures |times| == |trace|
  {
    if trace == [] then [] else [trace[0].time] + Times(trace[1..])
  }

  function TimesOf(ip: string, trace: seq<Request>): seq<real> {
    if trace == [] then []
    else if trace[0].ip == ip then [trace[0].time] + TimesOf(ip, trace[1..])
    else TimesOf(ip, trace[1..])
  }

  function AnswersOf(ip: string, trace: seq<Request>, flags: seq<bool>): seq<bool>
    requires |flags| == |trace|
  {
    if trace == [] then []
    else if trace[0].ip == ip then [flags[0]] + AnswersOf(ip, trace[1..], flags[1..])
    else AnswersOf(ip, trace[1..], flags[1..])
  }

  // ----- Neighbours and cleanup do not matter ------------------------------------------------------------------

  /** From `now` on, what the map knows about an address amounts to `t`: a closed window is like none. */
  predicate Stands(c: Limits, trackers: Trackers, ip: string, t: Option<Tracker>, now: real) {
    || Get(trackers, ip) == t
    || (Closed(c, Get(trackers, ip), now) && Closed(c, t, now))
  }

  predicate Closed(c: Limits, t: Option<Tracker>, now: real) { t.Some? ==> !Open(c, t.value, now) }

  /** The answers to an address are those it would get alone, whatever the others do and whatever cleanup
      removes on their behalf. */
  lemma {:induction false} NonInterference(c: Limits, trackers: Trackers, trace: seq<Request>, ip: string,
                                           t: Option<Tracker>, now: real)
    requires Clocked(now, Times(trace)) && Stands(c, trackers, ip, t, now)
    ensures AnswersOf(ip, trace, Answers(c, trackers, trace)) == SoloAnswers(c, t, TimesOf(ip, trace))
    decreases |trace|
  {
    if trace != [] {
      var r := trace[0];
      var next := Record(c, trackers, r);
      var t' := if r.ip == ip then Some(Counted(c, t, r.time)) else t;
      assert Times(trace)[1..] == Times(trace[1..]);
      NonInterference(c, next, trace[1..], ip, t', r.time);
      assert Answers(c, trackers, trace)[1..] == Answers(c, next, trace[1..]);
      if r.ip == ip { assert TimesOf(ip, trace)[1..] == TimesOf(ip, trace[1..]); }
    }
  }

  // ----- How much goes unflagged -----------------------------------------------------------------------------------

  /** Unflagged requests of one address at times in the half-open interval of one window's length from `from`. */
  function Unflagged(c: Limits, from: real, times: seq<real>, flags: seq<bool>): nat
    requires |flags| == |times|
  {
    if times == [] then 0
    else
      var rest := Unflagged(c, from, times[1..], flags[1..]);
      if from <= times[0] < from + c.window && !flags[0] then 1 + rest else rest
  }

  function Left(c: Limits, t: Tracker): nat { if t.count >= c.threshold then 0 else c.threshold - t.count }

  lemma {:induction false} Past(c: Limits, from: real, times: seq<real>, flags: seq<bool>, now: real)
    requires |flags| == |times| && Clocked(now, times) && now >= from + c.window
    ensures Unflagged(c, from, times, flags) == 0
    decreases |times|
  {
    if times != [] { Past(c, from, times[1..], flags[1..], times[0]); }
  }

  /** A window that starts inside the interval outlasts it. */
  lemma {:induction false} OneWindow(c: Limits, from: real, t: Tracker, times: seq<real>, now: real)
    requires c.window > 0.0 && Clocked(now, times) && from <= t.firstRequestAt <= now
    ensures Unflagged(c, from, times, SoloAnswers(c, Some(t), times)) <= Left(c, t)
    decreases |times|
  {
    if times != [] {
      var x, rest := times[0], times[1..];
      var next := Counted(c, Some(t), x);
      assert SoloAnswers(c, Some(t), times)[1..] == SoloAnswers(c, Some(next), rest);
      if x >= from + c.window {
        Past(c, from, rest, SoloAnswers(c, Some(next), rest), x);
      } else {
        OneWindow(c, from, next, rest, x);
      }
    }
  }

  /** Inside the interval, with a window open since before it: what is left of that one and all of the next. */
  lemma {:induction false} TwoWindows(c: Limits, from: real, t: Tracker, times: seq<real>, now: real)
    requires c.window > 0.0 && Clocked(now, times) && from <= now && t.firstRequestAt < from && t.count >= 1
    ensures Unflagged(c, from, times, SoloAnswers(c, Some(t), times)) <= Left(c, t) + c.threshold
    decreases |times|
  {
    if times != [] {
      var x, rest := times[0], times[1..];
      var next := Counted(c, Some(t), x);
      assert SoloAnswers(c, Some(t), times)[1..] == SoloAnswers(c, Some(next), rest);
      if Open(c, t, x) {
        TwoWindows(c, from, next, rest, x);
      } else {
        OneWindow(c, from, next, rest, x);
      }
    }
  }

  /** The most that can go unflagged in one window's length. */
  function Worst(c: Limits): nat { if c.threshold == 0 then 0 else 2 * c.threshold - 1 }

  lemma {:induction false} SoloBound(c: Limits, from: real, t: Option<Tracker>, times: seq<real>, now: real)
    requires c.window > 0.0 && Clocked(now, times) && now < from
    requires t.Some? ==> t.value.count >= 1 && t.value.firstRequestAt <= now
    ensures Unflagged(c, from, times, SoloAnswers(c, t, times)) <= Worst(c)
    decreases |times|
  {
    if times != [] {
      var x, rest := times[0], times[1..];
      var next := Counted(c, t, x);
      assert SoloAnswers(c, t, times)[1..] == SoloAnswers(c, Some(next), rest);
      if x < from {
        SoloBound(c, from, Some(next), rest, x);
      } else if next.firstRequestAt < from {
        TwoWindows(c, from, next, rest, x);
      } else {
        OneWindow(c, from, next, rest, x);
      }
    }
  }

  lemma {:induction false} TimesOfClocked(ip: string, trace: seq<Request>, now: real, later: real)
    requires Clocked(now, Times(trace)) && later <= now
    ensures Clocked(later, TimesOf(ip, trace))
    decreases |trace|
  {
    if trace != [] {
      assert Times(trace)[1..] == Times(trace[1..]);
      TimesOfClocked(ip, trace[1..], trace[0].time, if trace[0].ip == ip then trace[0].time else later);
      if trace[0].ip == ip { assert TimesOf(ip, trace)[1..] == TimesOf(ip, trace[1..]); }
    }
  }

  /** In every half-open interval of one window's length, of every run, fewer than twice the threshold of
      one address's requests go unflagged. */
  lemma UnflaggedBound(c: Limits, trace: seq<Request>, ip: string, from: real, start: real)
    requires c.window > 0.0 && Clocked(start, Times(trace))
    ensures |AnswersOf(ip, trace, Answers(c, map[], trace))| == |TimesOf(ip, trace)|
    ensures Unflagged(c, from, TimesOf(ip, trace), AnswersOf(ip, trace, Answers(c, map[], trace))) <= Worst(c)
  {
    NonInterference(c, map[], trace, ip, None, start);
    var early := if start < from then start else from - 1.0;
    TimesOfClocked(ip, trace, start, early);
    SoloBound(c, from, None, TimesOf(ip, trace), early);
  }

  // ----- ... and no less ---------------------------------------------------------------------------------------------

  /** `n` requests at the same instant. */
  function Burst(n: nat, now: real): (times: seq<real>)
    ensures |times| == n && forall i :: 0 <= i < n ==> times[i] == now
  {
    seq(n, i => now)
  }

  /** One request, then the rest of the threshold half a window later, then a whole threshold as soon as
      the next window starts. */
  function Worsening(c: Limits): seq<real>
    requires c.threshold >= 1
  {
    [0.0] + (Burst(c.threshold - 1, c.window / 2.0) + Burst(c.threshold, c.window))
  }

  lemma {:induction false} BurstCounts(c: Limits, from: real, t: Tracker, n: nat, x: real, rest: seq<real>)
    requires Open(c, t, x) && from <= x < from + c.window && t.count + n <= c.threshold
    ensures var times := Burst(n, x) + rest;
            var t' := Tracker(t.count + n, t.firstRequestAt);
            Unflagged(c, from, times, SoloAnswers(c, Some(t), times))
              == n + Unflagged(c, from, rest, SoloAnswers(c, Some(t'), rest))
    decreases n
  {
    var times := Burst(n, x) + rest;
    if n == 0 {
      assert times == rest;
    } else {
      var next := Tracker(t.count + 1, t.firstRequestAt);
      assert times[1..] == Burst(n - 1, x) + rest;
      assert SoloAnswers(c, Some(t), times)[1..] == SoloAnswers(c, Some(next), times[1..]);
      BurstCounts(c, from, next, n - 1, x, rest);
    }
  }

  lemma {:induction false} BurstClocked(n: nat, x: real, now: real, rest: seq<real>)
    requires now <= x && Clocked(if n == 0 then now else x, rest)
    ensures Clocked(now, Burst(n, x) + rest)
    decreases n
  {
    var times := Burst(n, x) + rest;
    if n == 0 {
      assert times == rest;
    } else {
      assert times[1..] == Burst(n - 1, x) + rest;
      BurstClocked(n - 1, x, x, rest);
    }
  }

  lemma NextWindow(c: Limits, t: Tracker)
    requires c.threshold >= 1 && c.window > 0.0 && t.firstRequestAt == 0.0
    ensures var late := Burst(c.threshold, c.window);
            Unflagged(c, c.window / 2.0, late, SoloAnswers(c, Some(t), late)) == c.threshold
  {
    var late, w, n := Burst(c.threshold, c.window), c.window, c.threshold;
    var next := Tracker(1, w);
    assert late[1..] == Burst(n - 1, w) + [];
    assert SoloAnswers(c, Some(t), late)[1..] == SoloAnswers(c, Some(next), late[1..]);
    BurstCounts(c, w / 2.0, next, n - 1, w, []);
  }

  lemma WorseningReaches(c: Limits)
    requires c.threshold >= 1 && c.window > 0.0
    ensures var times := Worsening(c);
            Clocked(0.0, times) && Unflagged(c, c.window / 2.0, times, SoloAnswers(c, None, times)) == Worst(c)
  {
    var times, n, half := Worsening(c), c.threshold, c.window / 2.0;
    var first, late := Tracker(1, 0.0), Burst(n, c.window);
    assert times[1..] == Burst(n - 1, half) + late;
    assert SoloAnswers(c, None, times)[1..] == SoloAnswers(c, Some(first), times[1..]);
    BurstCounts(c, half, first, n - 1, half, late);
    NextWindow(c, Tracker(1 + (n - 1), 0.0));
    assert late + [] == late;
    BurstClocked(n, c.window, half, []);
    BurstClocked(n - 1, half, 0.0, late);
  }

  /** Requests of one address at these times. */
  function From(ip: string, times: seq<real>): (trace: seq<Request>)
    ensures |trace| == |times|
    decreases |times|
  {
    if times == [] then [] else [Request(ip, times[0])] + From(ip, times[1..])
  }

  lemma {:induction false} FromTimes(ip: string, times: seq<real>)
    ensures Times(From(ip, times)) == times && TimesOf(ip, From(ip, times)) == times
    decreases |times|
  {
    if times != [] {
      FromTimes(ip, times[1..]);
      var trace := From(ip, times);
      assert trace[1..] == From(ip, times[1..]);
      assert Times(trace)[1..] == Times(trace[1..]);
    }
  }

  /** For every address, threshold and window some run of the monitor reaches the bound. */
  lemma BoundIsTight(c: Limits, ip: string) returns (trace: seq<Request>, from: real)
    requires c.window > 0.0
    ensures Clocked(0.0, Times(trace))
    ensures var answers := AnswersOf(ip, trace, Answers(c, map[], trace));
            |answers| == |TimesOf(ip, trace)| && Unflagged(c, from, TimesOf(ip, trace), answers) == Worst(c)
  {
    if c.threshold == 0 {
      trace, from := [], 0.0;
    } else {
      trace, from := From(ip, Worsening(c)), c.window / 2.0;
      FromTimes(ip, Worsening(c));
      WorseningReaches(c);
      NonInterference(c, map[], trace, ip, None, 0.0);
    }
  }
}
