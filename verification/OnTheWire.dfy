/** The status net/http puts on the wire, against the one the terminal record reports. */
module OnTheWire {
  import opened Strings
  import opened Lifecycle

  /** The server's side of a response: the final status it took, and whether the connection was taken over. */
  datatype Server = Server(status: Option<int>, taken: bool)

  /** The codes WriteHeader panics on. */
  predicate Refuses(code: int) {
    code < 100 || code > 999
  }

  /** What the server makes of what reaches it. After a takeover it drops everything; before, a code it refuses
      has no effect, the first final status counts, and a body or a flush implies a 200. */
  function Receive(s: Server, x: Sent): Server {
    match x
    case Status(code) =>
      if s.taken || s.status.Some? || Interim(code) || Refuses(code) then s else s.(status := Some(code))
    case Body(_) => if s.taken || s.status.Some? then s else s.(status := Some(OK))
    case Flushed => if s.taken || s.status.Some? then s else s.(status := Some(OK))
    case Hijacked(done) => if done then s.(taken := true) else s
  }

  function ServerAfter(sent: seq<Sent>): Server {
    if sent == [] then Server(None, false) else Receive(ServerAfter(sent[..|sent| - 1]), sent[|sent| - 1])
  }

  /** The status on the wire once the handler is done, zero if there is none: a handler that returns without a
      response is given a 200, one that panics or took the connection over is not. */
  function WireStatus(s: Server, panic: Panic): int {
    if s.status.Some? then s.status.value
    else if !s.taken && panic.NoPanic? then OK
    else 0
  }

  /** The handler's WriteHeader calls panic as net/http makes them: on a refused code, unless the connection was
      taken over before. */
  ghost predicate OverNetHttp(ops: seq<Op>) {
    forall i :: 0 <= i < |ops| && ops[i].WriteHeader? ==>
      (ops[i].panics <==> Refuses(ops[i].code) && !TookOver(ops[..i]))
  }

  /** Whether the operation that settles the response came after a takeover. */
  predicate SettledAfterTakeover(ops: seq<Op>) {
    ops != []
    && var before := ops[..|ops| - 1];
       if FirstFinal(before).Some? then SettledAfterTakeover(before)
       else Settles(ops[|ops| - 1]).Some? && TookOver(before)
  }

  /** Whether a body or a flush reached the server while it still had the connection. */
  predicate Fed(ops: seq<Op>) {
    ops != []
    && var before, last := ops[..|ops| - 1], ops[|ops| - 1];
       Fed(before) || ((last.Write? || (last.Flush? && last.supported)) && !TookOver(before))
  }

  lemma ReceiveOne(sent: seq<Sent>, x: Sent)
    ensures ServerAfter(sent + [x]) == Receive(ServerAfter(sent), x)
  {
    assert (sent + [x])[..|sent|] == sent;
  }

  /** What one operation does to the server, given whether the recorder has latched a status. */
  function Feed(s: Server, wrote: bool, op: Op): Server {
    match op
    case WriteHeader(code, _) => if Interim(code) || !wrote then Receive(s, Status(code)) else s
    case Write(accepted) => Receive(if wrote then s else Receive(s, Status(OK)), Body(accepted))
    case Flush(supported) =>
      if !supported then s else Receive(if wrote then s else Receive(s, Status(OK)), Flushed)
    case Hijack(takeover) => if takeover.Unsupported? then s else Receive(s, Hijacked(takeover.Done?))
  }

  lemma StepFeeds(longRunning: bool, r: Response, op: Op)
    ensures ServerAfter(Step(longRunning, r, op).sent) == Feed(ServerAfter(r.sent), r.wrote, op)
  {
    match op {
      case WriteHeader(code, panics) =>
        ReceiveOne(r.sent, Status(code));
      case Write(accepted) =>
        ReceiveOne(r.sent, Status(OK));
        ReceiveOne(DoWriteHeader(longRunning, r, OK, false).sent, Body(accepted));
      case Flush(supported) =>
        ReceiveOne(r.sent, Status(OK));
        ReceiveOne(DoWriteHeader(longRunning, r, OK, false).sent, Flushed);
      case Hijack(takeover) =>
        ReceiveOne(r.sent, Hijacked(takeover.Done?));
    }
  }

  /** What the server has, told from the handler's operations: nothing while nothing settled the response or when
      that came after a takeover, the status if the server took it, and at most an implied 200 if it refused it. */
  ghost predicate Tracks(ops: seq<Op>, s: Server) {
    && (s.taken <==> TookOver(ops))
    && match FirstFinal(ops)
       case None => s.status.None? && !SettledAfterTakeover(ops) && !Fed(ops)
       case Some(first) =>
         && (first.panics <==> Refuses(first.code) && !SettledAfterTakeover(ops))
         && if SettledAfterTakeover(ops) then s.taken && s.status.None?
            else if first.panics then s.status == (if Fed(ops) then Some(OK) else None)
            else s.status == Some(first.code)
  }

  lemma StepTracks(before: seq<Op>, op: Op, s: Server)
    requires Tracks(before, s) && OverNetHttp(before + [op])
    ensures Tracks(before + [op], Feed(s, FirstFinal(before).Some?, op))
  {
    var ops := before + [op];
    assert ops[..|ops| - 1] == before && ops[|before|] == op;
    LastStep(false, ops);
  }

  lemma {:induction false} ServerTracks(longRunning: bool, ops: seq<Op>)
    requires OverNetHttp(ops)
    ensures Tracks(ops, ServerAfter(After(longRunning, ops).sent))
  {
    if ops != [] {
      var before, op := ops[..|ops| - 1], ops[|ops| - 1];
      assert ops == before + [op];
      OverNetHttpBefore(ops);
      ServerTracks(longRunning, before);
      LatchedIsFirst(longRunning, before);
      LastStep(longRunning, ops);
      StepFeeds(longRunning, After(longRunning, before), op);
      StepTracks(before, op, ServerAfter(After(longRunning, before).sent));
    }
  }

  lemma OverNetHttpBefore(ops: seq<Op>)
    requires OverNetHttp(ops) && ops != []
    ensures OverNetHttp(ops[..|ops| - 1])
  {
    var before := ops[..|ops| - 1];
    forall i | 0 <= i < |before| && before[i].WriteHeader?
      ensures before[i].panics <==> Refuses(before[i].code) && !TookOver(before[..i])
    {
      assert before[..i] == ops[..i] && before[i] == ops[i];
    }
  }

  // ---- The main results ----

  /** The status a response was settled with never took effect: the server refused it, or no longer had the
      connection. */
  predicate NeverTaken(ops: seq<Op>) {
    FirstFinal(ops).Some? && (FirstFinal(ops).value.panics || SettledAfterTakeover(ops))
  }

  /** A response settled so and nothing else put on the wire instead. */
  predicate NothingInstead(ops: seq<Op>, panic: Panic) {
    SettledAfterTakeover(ops) || (!Fed(ops) && (TookOver(ops) || !panic.NoPanic?))
  }

  /** The terminal record reports the status on the wire, zero for none, exactly when the first final status took
      effect, or there was none, or it was a zero with nothing on the wire instead. */
  lemma StatusIsOnTheWireExactlyWhen(longRunning: bool, ops: seq<Op>, panic: Panic)
    requires OverNetHttp(ops)
    ensures var r := After(longRunning, ops);
      TerminalStatus(r, panic) == WireStatus(ServerAfter(r.sent), panic)
      <==> (NeverTaken(ops) ==> FirstFinal(ops).value.code == 0 && NothingInstead(ops, panic))
  {
    ServerTracks(longRunning, ops);
    LatchedIsFirst(longRunning, ops);
    BytesAreFaithful(longRunning, ops);
  }

  /** Zero stands for "no response went out", exactly unless the first final status never took effect and is
      nonzero with nothing on the wire, or zero with a response there instead. */
  lemma ZeroMeansNothingWentOutExactlyWhen(longRunning: bool, ops: seq<Op>, panic: Panic)
    requires OverNetHttp(ops)
    ensures var r := After(longRunning, ops);
      (TerminalStatus(r, panic) == 0 <==> WireStatus(ServerAfter(r.sent), panic) == 0)
      <==> (NeverTaken(ops) ==> (FirstFinal(ops).value.code == 0 <==> NothingInstead(ops, panic)))
  {
    ServerTracks(longRunning, ops);
    LatchedIsFirst(longRunning, ops);
    BytesAreFaithful(longRunning, ops);
  }

  lemma OneStep(longRunning: bool, op: Op)
    ensures After(longRunning, [op]) == Step(longRunning, UNTOUCHED, op)
  {
    assert [op][..0] == [];
  }

  /** A status the server refuses, whatever its nonzero code: nothing goes out, and the record reports the code. */
  lemma RefusedStatusIsReported(longRunning: bool, code: int)
    requires Refuses(code)
    ensures var ops := [WriteHeader(code, true)];
      var r := After(longRunning, ops);
      OverNetHttp(ops) && TerminalStatus(r, Fault) == code && WireStatus(ServerAfter(r.sent), Fault) == 0
  {
    OneStep(longRunning, WriteHeader(code, true));
    StepFeeds(longRunning, UNTOUCHED, WriteHeader(code, true));
  }

  /** A status written after the connection was taken over: nothing goes out, and the record reports it. */
  lemma StatusAfterTakeoverIsReported(longRunning: bool, code: int)
    requires !Interim(code)
    ensures var ops := [Hijack(Done), WriteHeader(code, false)];
      var r := After(longRunning, ops);
      OverNetHttp(ops) && TerminalStatus(r, NoPanic) == code && WireStatus(ServerAfter(r.sent), NoPanic) == 0
  {
    var ops := [Hijack(Done), WriteHeader(code, false)];
    assert ops[..1] == [Hijack(Done)] && TookOver(ops[..1]);
    var taken := After(longRunning, [Hijack(Done)]);
    OneStep(longRunning, Hijack(Done));
    StepFeeds(longRunning, UNTOUCHED, Hijack(Done));
    StepFeeds(longRunning, taken, WriteHeader(code, false));
    assert ops[..|ops| - 1] == [Hijack(Done)];
  }
}
