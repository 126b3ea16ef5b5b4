/** Any number of overlapping requests sharing the collectors, interleaved in any way. */
module Gauges {
  import opened Strings
  import opened Metrics
  import opened Lifecycle

  /** A request, what its handler has done so far, and how it ended if it has. */
  datatype Request = Request(
    verb: string, scope: string, longRunning: bool, ops: seq<Op>, end: Option<Ending>)

  datatype State = State(requests: seq<Request>, collectors: Collectors)

  const INIT := State([], EMPTY)

  datatype Event =
    | Begin(verb: string, scope: string, longRunning: bool)
    | Do(i: nat, op: Op)
    | End(i: nat, ending: Ending)

  predicate Enabled(s: State, e: Event) {
    e.Begin? || (e.i < |s.requests| && s.requests[e.i].end.None?)
  }

  function ResponseOf(r: Request): Response {
    After(r.longRunning, r.ops)
  }

  /** What one event does: to its own request, and to the collectors as the lifecycle filter updates them. */
  function Next(s: State, e: Event): State
    requires Enabled(s, e)
  {
    match e
    case Begin(verb, scope, longRunning) =>
      State(s.requests + [Request(verb, scope, longRunning, [], None)], Started(s.collectors))
    case Do(i, op) =>
      var r := s.requests[i];
      var before := ResponseOf(r);
      var opens := Step(r.longRunning, before, op).openings > before.openings;
      State(
        s.requests[i := r.(ops := r.ops + [op])],
        if opens then Established(s.collectors, r.verb, r.scope) else s.collectors)
    case End(i, ending) =>
      var r := s.requests[i];
      State(
        s.requests[i := r.(end := Some(ending))],
        Finished(s.collectors, ObservationOf(r.verb, r.scope, r.longRunning, ResponseOf(r), ending)))
  }

  ghost predicate IsRun(events: seq<Event>)
    decreases |events|, 0
  {
    events == [] || (IsRun(events[..|events| - 1])
                     && Enabled(Reached(events[..|events| - 1]), events[|events| - 1]))
  }

  ghost function Reached(events: seq<Event>): State
    requires IsRun(events)
    decreases |events|, 1
  {
    if events == [] then INIT else Next(Reached(events[..|events| - 1]), events[|events| - 1])
  }

  // ---- What each series should read ----

  datatype Query =
    | InFlight
    | Streams(series: Series)
    | Total(labels: Labels)
    | Durations(series: Series)

  /** What the collectors read. */
  function Reading(c: Collectors, q: Query): int {
    match q
    case InFlight => c.inFlight
    case Streams(series) => At(c.longRunning, series)
    case Total(labels) => At(c.total, labels)
    case Durations(series) => At(c.durations, series)
  }

  /** Whether a request belongs under a series, told from what its handler did and how it ended. */
  predicate Belongs(r: Request, q: Query) {
    match q
    case InFlight => r.end.None?
    case Streams(series) =>
      r.end.None? && r.longRunning && SeriesFor(r.verb, r.scope) == series
      && (TookOver(r.ops) || Begun(FirstFinal(r.ops)))
    case Total(labels) =>
      r.end.Some? && SeriesFor(r.verb, r.scope) == labels.series
      && CodeFor(TerminalStatus(ResponseOf(r), r.end.value.panic)) == labels.code
      && ProjectTermination(Termination(ResponseOf(r), r.end.value)) == labels.termination
    case Durations(series) =>
      r.end.Some? && !r.longRunning && !TookOver(r.ops) && SeriesFor(r.verb, r.scope) == series
  }

  function Count(rs: seq<Request>, q: Query): nat {
    if rs == [] then 0
    else Count(rs[..|rs| - 1], q) + if Belongs(rs[|rs| - 1], q) then 1 else 0
  }

  function Unit(r: Request, q: Query): int {
    if Belongs(r, q) then 1 else 0
  }

  lemma {:induction false} CountAfterUpdate(rs: seq<Request>, i: nat, r: Request, q: Query)
    requires i < |rs|
    ensures Count(rs[i := r], q) == Count(rs, q) - Unit(rs[i], q) + Unit(r, q)
  {
    var n := |rs| - 1;
    if i == n {
      assert rs[i := r][..n] == rs[..n];
    } else {
      assert rs[i := r][..n] == rs[..n][i := r];
      CountAfterUpdate(rs[..n], i, r, q);
    }
  }

  ghost predicate Accurate(s: State) {
    forall q :: Reading(s.collectors, q) == Count(s.requests, q)
  }

  lemma BeginKeeps(s: State, e: Event, q: Query)
    requires e.Begin? && Reading(s.collectors, q) == Count(s.requests, q)
    ensures Reading(Next(s, e).collectors, q) == Count(Next(s, e).requests, q)
  {
    assert Next(s, e).requests[..|s.requests|] == s.requests;
    var entering := Request(e.verb, e.scope, e.longRunning, [], None);
    assert !TookOver(entering.ops);
  }

  /** An operation moves only the gauge of its own series, and only when it opens the stream. */
  lemma DoChanges(r: Request, op: Op, c: Collectors, q: Query)
    requires r.end.None?
    ensures var r' := r.(ops := r.ops + [op]);
      var opens := Step(r.longRunning, ResponseOf(r), op).openings > ResponseOf(r).openings;
      var c' := if opens then Established(c, r.verb, r.scope) else c;
      Reading(c', q) - Reading(c, q) == Unit(r', q) - Unit(r, q)
  {
    var r' := r.(ops := r.ops + [op]);
    assert r'.ops[..|r'.ops| - 1] == r.ops;
    assert ResponseOf(r') == Step(r.longRunning, ResponseOf(r), op);
    StreamOpensOnce(r.longRunning, r.ops);
    StreamOpensOnce(r.longRunning, r'.ops);
    StepEstablishes(r.longRunning, ResponseOf(r), op);
  }

  /** The end of a request takes it out of both gauges and enters it once in the counter. */
  lemma EndChanges(r: Request, ending: Ending, c: Collectors, q: Query)
    requires r.end.None?
    ensures var r' := r.(end := Some(ending));
      var c' := Finished(c, ObservationOf(r.verb, r.scope, r.longRunning, ResponseOf(r), ending));
      Reading(c', q) - Reading(c, q) == Unit(r', q) - Unit(r, q)
  {
    StreamOpensOnce(r.longRunning, r.ops);
    BytesAreFaithful(r.longRunning, r.ops);
  }

  lemma StepKeeps(s: State, e: Event)
    requires Enabled(s, e) && Accurate(s)
    ensures Accurate(Next(s, e))
  {
    forall q
      ensures Reading(Next(s, e).collectors, q) == Count(Next(s, e).requests, q)
    {
      match e {
        case Begin(_, _, _) => BeginKeeps(s, e, q);
        case Do(i, op) =>
          var r := s.requests[i];
          DoChanges(r, op, s.collectors, q);
          CountAfterUpdate(s.requests, i, r.(ops := r.ops + [op]), q);
        case End(i, ending) =>
          var r := s.requests[i];
          EndChanges(r, ending, s.collectors, q);
          CountAfterUpdate(s.requests, i, r.(end := Some(ending)), q);
      }
    }
  }

  // ---- The main results ----

  /** In every run every series reads exactly the number of requests that belong under it: the in-flight gauge
      the requests that have not ended, each long-running gauge the open streams with its labels, the counter
      the ended requests with its labels, the histogram those neither long-running nor hijacked. None is ever
      negative. */
  lemma {:induction false} EverySeriesIsACount(events: seq<Event>, q: Query)
    requires IsRun(events)
    ensures Reading(Reached(events).collectors, q) == Count(Reached(events).requests, q)
  {
    RunIsAccurate(events);
  }

  lemma {:induction false} RunIsAccurate(events: seq<Event>)
    requires IsRun(events)
    ensures Accurate(Reached(events))
  {
    if events != [] {
      RunIsAccurate(events[..|events| - 1]);
      StepKeeps(Reached(events[..|events| - 1]), events[|events| - 1]);
    }
  }

  lemma {:induction false} EndedLeaveGauges(rs: seq<Request>, q: Query)
    requires forall i :: 0 <= i < |rs| ==> rs[i].end.Some?
    requires q.InFlight? || q.Streams?
    ensures Count(rs, q) == 0
  {
    if rs != [] {
      EndedLeaveGauges(rs[..|rs| - 1], q);
    }
  }

  /** No gauge leaks: once every request has ended, however it ended, both gauges are back at zero. */
  lemma GaugesDrain(events: seq<Event>, series: Series)
    requires IsRun(events)
    requires forall i :: 0 <= i < |Reached(events).requests| ==> Reached(events).requests[i].end.Some?
    ensures Reached(events).collectors.inFlight == 0
    ensures At(Reached(events).collectors.longRunning, series) == 0
  {
    EverySeriesIsACount(events, InFlight);
    EverySeriesIsACount(events, Streams(series));
    EndedLeaveGauges(Reached(events).requests, InFlight);
    EndedLeaveGauges(Reached(events).requests, Streams(series));
  }
}
