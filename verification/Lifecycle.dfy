/** One request's response, as the recorder wrapped around the ResponseWriter sees it. */
module Lifecycle {
  import opened Strings
  import opened Metrics

  const OK := 200
  const SWITCHING_PROTOCOLS := 101

  /** A 1xx other than 101: passed on, never latched. */
  predicate Interim(code: int) {
    100 <= code <= 199 && code != SWITCHING_PROTOCOLS
  }

  predicate OpensStream(code: int) {
    code == SWITCHING_PROTOCOLS || 200 <= code < 300
  }

  datatype Takeover = Unsupported | Refused | Done

  /** What a handler does to its response, with what the writer underneath makes of it: WriteHeader panics on
      a code it refuses, a Write accepts some bytes, a flush or a hijack may not be supported. */
  datatype Op =
    | WriteHeader(code: int, panics: bool)
    | Write(accepted: nat)
    | Flush(supported: bool)
    | Hijack(takeover: Takeover)

  /** What reaches the writer underneath. */
  datatype Sent = Status(code: int) | Body(accepted: nat) | Flushed | Hijacked(done: bool)

  datatype Response = Response(
    status: int, bytes: nat, wrote: bool, hijacked: bool, established: bool, openings: nat, sent: seq<Sent>)

  const UNTOUCHED := Response(0, 0, false, false, false, 0, [])

  function Opened(longRunning: bool, r: Response): Response {
    if longRunning && !r.established then r.(established := true, openings := r.openings + 1) else r
  }

  function DoWriteHeader(longRunning: bool, r: Response, code: int, panics: bool): Response {
    if Interim(code) then r.(sent := r.sent + [Status(code)])
    else if r.wrote then r
    else
      var latched := r.(wrote := true, status := code, sent := r.sent + [Status(code)]);
      if !panics && OpensStream(code) then Opened(longRunning, latched) else latched
  }

  function Step(longRunning: bool, r: Response, op: Op): Response {
    match op
    case WriteHeader(code, panics) => DoWriteHeader(longRunning, r, code, panics)
    case Write(accepted) =>
      var begun := DoWriteHeader(longRunning, r, OK, false);
      begun.(bytes := begun.bytes + accepted, sent := begun.sent + [Body(accepted)])
    case Flush(supported) =>
      if !supported then r
      else
        var begun := DoWriteHeader(longRunning, r, OK, false);
        begun.(sent := begun.sent + [Flushed])
    case Hijack(takeover) =>
      if takeover.Unsupported? then r
      else
        var asked := r.(sent := r.sent + [Hijacked(takeover.Done?)]);
        if takeover.Done? then Opened(longRunning, asked.(hijacked := true)) else asked
  }

  function After(longRunning: bool, ops: seq<Op>): Response {
    if ops == [] then UNTOUCHED else Step(longRunning, After(longRunning, ops[..|ops| - 1]), ops[|ops| - 1])
  }

  // ---- The recorder ----

  /** The ResponseWriter underneath, as the log of what it received. */
  class Wire {
    var sent: seq<Sent>

    constructor ()
      ensures sent == []
    {
      sent := [];
    }
  }

  /** The recorder of one request, together with the flag and the gauge its stream hooks update. */
  class ResponseRecorder {
    const wire: Wire
    const metrics: Recorder
    const verb: string
    const scope: string
    const longRunning: bool
    var status: int
    var bytes: nat
    var wrote: bool
    var hijacked: bool
    var established: bool
    ghost var openings: nat

    ghost function View(): Response
      reads this, wire
    {
      Response(status, bytes, wrote, hijacked, established, openings, wire.sent)
    }

    /** The collectors, one stream further on if this call opened one. */
    twostate predicate GaugeFollows()
      reads this, metrics
    {
      metrics.View()
        == if openings > old(openings) then Established(old(metrics.View()), verb, scope) else old(metrics.View())
    }

    constructor (wire: Wire, metrics: Recorder, verb: string, scope: string, longRunning: bool)
      requires wire.sent == []
      ensures this.wire == wire && this.metrics == metrics
      ensures this.verb == verb && this.scope == scope && this.longRunning == longRunning
      ensures View() == UNTOUCHED
    {
      this.wire, this.metrics, this.verb, this.scope, this.longRunning := wire, metrics, verb, scope, longRunning;
      status, bytes, wrote, hijacked, established, openings := 0, 0, false, false, false, 0;
    }

    method Establish()
      modifies this, metrics
      ensures View() == Opened(longRunning, old(View())) && GaugeFollows()
    {
      if longRunning && !established {
        established := true;
        openings := openings + 1;
        metrics.LongRunningEstablished(verb, scope);
      }
    }

    method WriteHeader(code: int, panics: bool)
      modifies this, wire, metrics
      ensures View() == DoWriteHeader(longRunning, old(View()), code, panics) && GaugeFollows()
    {
      if 100 <= code <= 199 && code != SWITCHING_PROTOCOLS {
        wire.sent := wire.sent + [Status(code)];
        return;
      }
      if wrote {
        return;
      }
      wrote := true;
      status := code;
      wire.sent := wire.sent + [Status(code)];
      if panics {
        return;
      }
      if code == SWITCHING_PROTOCOLS || (OK <= code < 300) {
        Establish();
      }
    }

    method Write(accepted: nat)
      modifies this, wire, metrics
      ensures View() == Step(longRunning, old(View()), Op.Write(accepted)) && GaugeFollows()
    {
      if !wrote {
        WriteHeader(OK, false);
      }
      wire.sent := wire.sent + [Body(accepted)];
      bytes := bytes + accepted;
    }

    method Flush(supported: bool)
      modifies this, wire, metrics
      ensures View() == Step(longRunning, old(View()), Op.Flush(supported)) && GaugeFollows()
    {
      if !supported {
        return;
      }
      if !wrote {
        WriteHeader(OK, false);
      }
      wire.sent := wire.sent + [Flushed];
    }

    method Hijack(takeover: Takeover)
      modifies this, wire, metrics
      ensures View() == Step(longRunning, old(View()), Op.Hijack(takeover)) && GaugeFollows()
    {
      if takeover.Unsupported? {
        return;
      }
      wire.sent := wire.sent + [Hijacked(takeover.Done?)];
      if takeover.Done? {
        hijacked := true;
        Establish();
      }
    }

    /** One operation of the handler. */
    method Perform(op: Op)
      modifies this, wire, metrics
      ensures View() == Step(longRunning, old(View()), op) && GaugeFollows()
    {
      match op {
        case WriteHeader(code, panics) => WriteHeader(code, panics);
        case Write(accepted) => Write(accepted);
        case Flush(supported) => Flush(supported);
        case Hijack(takeover) => Hijack(takeover);
      }
    }
  }

  // ---- What a whole response amounts to ----

  /** A final status, and whether the writer underneath refused it. */
  datatype FinalStatus = FinalStatus(code: int, panics: bool)

  /** What an operation settles the response with: a final WriteHeader its code, a Write or a supported
      flush the 200 they imply. */
  function Settles(op: Op): Option<FinalStatus> {
    match op
    case WriteHeader(code, panics) => if Interim(code) then None else Some(FinalStatus(code, panics))
    case Write(_) => Some(FinalStatus(OK, false))
    case Flush(supported) => if supported then Some(FinalStatus(OK, false)) else None
    case Hijack(_) => None
  }

  /** The first operation that settles the response. */
  function FirstFinal(ops: seq<Op>): Option<FinalStatus> {
    if ops == [] then None
    else
      var earlier := FirstFinal(ops[..|ops| - 1]);
      if earlier.Some? then earlier else Settles(ops[|ops| - 1])
  }

  predicate TookOver(ops: seq<Op>) {
    Hijack(Done) in ops
  }

  function Accepted(ops: seq<Op>): nat {
    if ops == [] then 0
    else
      var last := ops[|ops| - 1];
      Accepted(ops[..|ops| - 1]) + if last.Write? then last.accepted else 0
  }

  function InterimOf(op: Op): seq<int> {
    if op.WriteHeader? && Interim(op.code) then [op.code] else []
  }

  function InterimCodes(ops: seq<Op>): seq<int> {
    if ops == [] then [] else InterimCodes(ops[..|ops| - 1]) + InterimOf(ops[|ops| - 1])
  }

  /** The interim, or the final, statuses among what was sent. */
  function Statuses(sent: seq<Sent>, interim: bool): seq<int> {
    if sent == [] then []
    else
      var last := sent[|sent| - 1];
      Statuses(sent[..|sent| - 1], interim)
      + if last.Status? && Interim(last.code) == interim then [last.code] else []
  }

  lemma SendOne(sent: seq<Sent>, x: Sent, interim: bool)
    ensures Statuses(sent + [x], interim)
      == Statuses(sent, interim) + if x.Status? && Interim(x.code) == interim then [x.code] else []
  {
    assert (sent + [x])[..|sent|] == sent;
  }

  lemma HeaderSends(longRunning: bool, r: Response, code: int, panics: bool, interim: bool)
    ensures var r' := DoWriteHeader(longRunning, r, code, panics);
      Statuses(r'.sent, interim) == Statuses(r.sent, interim)
        + if Interim(code) == interim && (interim || !r.wrote) then [code] else []
  {
    SendOne(r.sent, Status(code), interim);
  }

  /** What one step adds to the statuses sent. */
  lemma StepSends(longRunning: bool, r: Response, op: Op)
    ensures var r' := Step(longRunning, r, op);
      && Statuses(r'.sent, true) == Statuses(r.sent, true) + InterimOf(op)
      && Statuses(r'.sent, false) == Statuses(r.sent, false)
           + (if !r.wrote && Settles(op).Some? then [Settles(op).value.code] else [])
  {
    match op {
      case WriteHeader(code, panics) =>
        HeaderSends(longRunning, r, code, panics, true);
        HeaderSends(longRunning, r, code, panics, false);
      case Write(accepted) =>
        AfterImplied(longRunning, r, Body(accepted));
      case Flush(supported) =>
        if supported {
          AfterImplied(longRunning, r, Flushed);
        }
      case Hijack(takeover) =>
        SendOne(r.sent, Hijacked(takeover.Done?), true);
        SendOne(r.sent, Hijacked(takeover.Done?), false);
    }
  }

  lemma AfterImplied(longRunning: bool, r: Response, x: Sent)
    requires !x.Status?
    ensures var begun := DoWriteHeader(longRunning, r, OK, false);
      && Statuses(begun.sent + [x], true) == Statuses(r.sent, true)
      && Statuses(begun.sent + [x], false) == Statuses(r.sent, false) + if r.wrote then [] else [OK]
  {
    var begun := DoWriteHeader(longRunning, r, OK, false);
    HeaderSends(longRunning, r, OK, false, true);
    HeaderSends(longRunning, r, OK, false, false);
    SendOne(begun.sent, x, true);
    SendOne(begun.sent, x, false);
  }

  /** What one step latches. */
  lemma StepLatches(longRunning: bool, r: Response, op: Op)
    ensures var r' := Step(longRunning, r, op);
      && (r'.wrote <==> r.wrote || Settles(op).Some?)
      && r'.status == (if !r.wrote && Settles(op).Some? then Settles(op).value.code else r.status)
  {
  }

  /** Whether one step is a hijack, or a first final status that announces a stream. */
  predicate Announces(r: Response, op: Op) {
    || op == Hijack(Done)
    || (!r.wrote && Settles(op).Some? && !Settles(op).value.panics && OpensStream(Settles(op).value.code))
  }

  lemma StepEstablishes(longRunning: bool, r: Response, op: Op)
    ensures var r' := Step(longRunning, r, op);
      && (r'.established <==> r.established || (longRunning && Announces(r, op)))
      && r'.openings == r.openings + (if r'.established && !r.established then 1 else 0)
  {
  }

  /** Whether the first final status announces a stream. */
  predicate Begun(first: Option<FinalStatus>) {
    first.Some? && !first.value.panics && OpensStream(first.value.code)
  }

  /** The response just before the last operation, the operation, and the response after it. */
  lemma LastStep(longRunning: bool, ops: seq<Op>)
    requires ops != []
    ensures var before, op := ops[..|ops| - 1], ops[|ops| - 1];
      && After(longRunning, ops) == Step(longRunning, After(longRunning, before), op)
      && FirstFinal(ops) == (if FirstFinal(before).Some? then FirstFinal(before) else Settles(op))
      && (TookOver(ops) <==> TookOver(before) || op == Hijack(Done))
  {
    assert ops == ops[..|ops| - 1] + [ops[|ops| - 1]];
  }

  lemma {:induction false} LatchedIsFirst(longRunning: bool, ops: seq<Op>)
    ensures var r, first := After(longRunning, ops), FirstFinal(ops);
      && (r.wrote <==> first.Some?)
      && r.status == (if first.Some? then first.value.code else 0)
  {
    if ops != [] {
      LastStep(longRunning, ops);
      LatchedIsFirst(longRunning, ops[..|ops| - 1]);
      StepLatches(longRunning, After(longRunning, ops[..|ops| - 1]), ops[|ops| - 1]);
    }
  }

  /** The one status a response has: what was latched is what was sent, once, and interim ones are passed on
      in order. */
  lemma {:induction false} StatusIsFaithful(longRunning: bool, ops: seq<Op>)
    ensures var r, first := After(longRunning, ops), FirstFinal(ops);
      && Statuses(r.sent, false) == (if r.wrote then [r.status] else [])
      && (r.wrote <==> first.Some?)
      && r.status == (if first.Some? then first.value.code else 0)
      && Statuses(r.sent, true) == InterimCodes(ops)
  {
    LatchedIsFirst(longRunning, ops);
    if ops != [] {
      var before, op := ops[..|ops| - 1], ops[|ops| - 1];
      LastStep(longRunning, ops);
      StatusIsFaithful(longRunning, before);
      StepSends(longRunning, After(longRunning, before), op);
      StepLatches(longRunning, After(longRunning, before), op);
    }
  }

  /** The byte count is the sum of what was accepted, and a takeover is a hijack that went through. */
  lemma {:induction false} BytesAreFaithful(longRunning: bool, ops: seq<Op>)
    ensures After(longRunning, ops).bytes == Accepted(ops)
    ensures After(longRunning, ops).hijacked <==> TookOver(ops)
  {
    if ops != [] {
      BytesAreFaithful(longRunning, ops[..|ops| - 1]);
      LastStep(longRunning, ops);
    }
  }

  /** A long-running request's stream is opened at most once, exactly on a hijack or on a first final status
      of 101 or 2xx that the writer took; no other request has one. */
  lemma {:induction false} StreamOpensOnce(longRunning: bool, ops: seq<Op>)
    ensures var r := After(longRunning, ops);
      && (r.established <==> longRunning && (TookOver(ops) || Begun(FirstFinal(ops))))
      && r.openings == (if r.established then 1 else 0)
  {
    if ops != [] {
      var before, op := ops[..|ops| - 1], ops[|ops| - 1];
      StreamOpensOnce(longRunning, before);
      LatchedIsFirst(longRunning, before);
      LastStep(longRunning, ops);
      StepEstablishes(longRunning, After(longRunning, before), op);
    }
  }

  // ---- The end of a request ----

  datatype Panic = NoPanic | Abort | Fault

  /** What the error handler left on the request's termination holder. */
  datatype Classified = Classified(termination: string, reason: string)

  datatype Ending = Ending(panic: Panic, canceled: bool, classified: Classified)

  /** The terminal record. */
  datatype Completed = Completed(status: int, termination: string, bytes: Option<nat>, reason: Option<string>)

  /** The status the terminal record reports. */
  function TerminalStatus(r: Response, panic: Panic): int {
    if !r.wrote && !r.hijacked && panic.NoPanic? then OK else r.status
  }

  /** How the exchange ended. */
  function Termination(r: Response, e: Ending): string {
    if e.panic.Fault? then "panic"
    else if r.hijacked then "hijacked"
    else if e.canceled then "client_cancel"
    else if e.panic.Abort? then "upstream_reset"
    else if e.classified.termination != "" then e.classified.termination
    else "normal"
  }

  function Completion(r: Response, e: Ending): Completed {
    var termination := Termination(r, e);
    Completed(
      TerminalStatus(r, e.panic), termination, if r.hijacked then None else Some(r.bytes),
      if termination == e.classified.termination && e.classified.reason != "" then Some(e.classified.reason)
      else None)
  }

  /** What the lifecycle filter observes once the handler has returned or panicked. */
  function ObservationOf(verb: string, scope: string, longRunning: bool, r: Response, e: Ending): Observation {
    Observation(
      verb, scope, TerminalStatus(r, e.panic), Termination(r, e), longRunning, r.established, r.hijacked)
  }

  /** The handler's turn: its operations one after another. */
  method RunHandler(rec: ResponseRecorder, ops: seq<Op>)
    requires rec.View() == UNTOUCHED
    modifies rec, rec.wire, rec.metrics
    ensures rec.View() == After(rec.longRunning, ops)
    ensures rec.metrics.View()
      == if rec.established then Established(old(rec.metrics.View()), rec.verb, rec.scope)
         else old(rec.metrics.View())
  {
    for i := 0 to |ops|
      invariant rec.View() == After(rec.longRunning, ops[..i])
      invariant rec.metrics.View()
        == if rec.established then Established(old(rec.metrics.View()), rec.verb, rec.scope)
           else old(rec.metrics.View())
    {
      StreamOpensOnce(rec.longRunning, ops[..i]);
      StreamOpensOnce(rec.longRunning, ops[..i + 1]);
      assert ops[..i + 1][..i] == ops[..i];
      rec.Perform(ops[i]);
    }
    assert ops[..|ops|] == ops;
  }

  /** The deferred half of the lifecycle filter: the terminal record and the one observation. */
  method Conclude(rec: ResponseRecorder, e: Ending) returns (record: Completed)
    modifies rec.metrics
    ensures record == Completion(rec.View(), e)
    ensures rec.metrics.View()
      == Finished(old(rec.metrics.View()), ObservationOf(rec.verb, rec.scope, rec.longRunning, rec.View(), e))
  {
    var termination := "normal";
    if e.panic.Fault? {
      termination := "panic";
    } else if rec.hijacked {
      termination := "hijacked";
    } else if e.canceled {
      termination := "client_cancel";
    } else if !e.panic.NoPanic? {
      termination := "upstream_reset";
    } else if e.classified.termination != "" {
      termination := e.classified.termination;
    }
    var status := rec.status;
    if !rec.wrote && !rec.hijacked && e.panic.NoPanic? {
      status := OK;
    }
    var bytes := if rec.hijacked then None else Some(rec.bytes);
    var reason := if termination == e.classified.termination && e.classified.reason != ""
      then Some(e.classified.reason) else None;
    record := Completed(status, termination, bytes, reason);
    rec.metrics.RequestFinished(
      Observation(rec.verb, rec.scope, status, termination, rec.longRunning, rec.established, rec.hijacked));
  }

  /** One request alone, from the gauge it enters to the record it leaves. The record and the metric carry the
      same status and termination. */
  method WithRequestLifecycle(
    wire: Wire, metrics: Recorder, verb: string, scope: string, longRunning: bool, ops: seq<Op>, e: Ending)
    returns (record: Completed)
    requires wire.sent == []
    modifies wire, metrics
    ensures wire.sent == After(longRunning, ops).sent
    ensures record == Completion(After(longRunning, ops), e)
    ensures var entered := Started(old(metrics.View()));
      var streaming := if After(longRunning, ops).established then Established(entered, verb, scope) else entered;
      metrics.View() == Finished(streaming, ObservationOf(verb, scope, longRunning, After(longRunning, ops), e))
  {
    var rec := new ResponseRecorder(wire, metrics, verb, scope, longRunning);
    metrics.RequestStarted();
    RunHandler(rec, ops);
    record := Conclude(rec, e);
  }
}
