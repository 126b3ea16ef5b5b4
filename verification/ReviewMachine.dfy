/** Everything that happens to authorization questions while many requests ask them at once: the decision
    cache, the shared flights, direct reviews, contexts that end, entries that are evicted, a clock that is
    set to anything, and an API server whose verdict may change from one review to the next. One step is one
    atomic action of one goroutine or of the environment. */
module ReviewMachine {
  import opened Strings
  import opened ReviewSpec
  import opened Errors

  type Key = string

  const MAX_CACHE_KEY_SIZE := 10000

  /** What may be assumed of the API server and of the callers' contexts. */
  datatype Environment =
    | Anything
    | Honest                        // a context error is reported only once the review's context is done
    | Settled(verdict: Spec -> bool) // one error-free verdict per question, and no context ends

  datatype Config = Config(
    json: Spec -> Option<string>, allowTTL: int, denyTTL: int, environment: Environment)

  /** The serialised review identifies the review. */
  ghost predicate JsonIsInjective(c: Config) {
    forall a, b :: c.json(a).Some? && c.json(a) == c.json(b) ==> a == b
  }

  predicate CacheEnabled(c: Config) {
    c.allowTTL > 0 || c.denyTTL > 0
  }

  function KeyOf(c: Config, spec: Spec): Option<Key> {
    if !CacheEnabled(c) then None
    else match c.json(spec)
      case None => None
      case Some(text) => if |text| > MAX_CACHE_KEY_SIZE then None else Some(text)
  }

  function TTL(c: Config, allowed: bool): int {
    if allowed then c.allowTTL else c.denyTTL
  }

  // ---- State ----

  datatype Reply = Verdict(allowed: bool) | Fault(error: Error)

  /** One SubjectAccessReview sent to the API server, by the question whose context it runs under. */
  datatype Review = Review(spec: Spec, caller: nat, reply: Option<Reply>)

  datatype Phase = Running | Replied | Filled | Delivered

  /** A shared call. Times are counted in steps of the run. */
  datatype Flight = Flight(
    key: Key, winner: nat, review: nat, shared: bool, phase: Phase, openedAt: nat, closedAt: nat)

  datatype Entry = Entry(allowed: bool, storedAt: int, expires: int, flight: nat)

  datatype Lookup = Pending | Hit | Miss | Bypass

  datatype Source =
    | FromCache(flight: nat, storedAt: int, servedAt: int)
    | FromFlight(flight: nat, joined: nat)
    | FromOwnReview(review: nat)
    | FromOwnContext

  datatype Progress =
    | Asking
    | Missed
    | Waiting(flight: nat, joined: nat)
    | Reviewing(review: nat)
    | Answered(reply: Reply, source: Source)

  /** One authorization question, asked by a request with a context of its own. Winning a flight, retrying,
      the reviews issued under this question's context and the terminal records written are counted. */
  datatype Question = Question(
    spec: Spec, request: nat, lookup: Lookup, progress: Progress,
    won: bool, retried: bool, issued: nat, records: nat)

  datatype State = State(
    questions: seq<Question>,
    flights: seq<Flight>,
    inFlight: map<Key, nat>,       // the flight group's calls in progress
    cache: map<Key, Entry>,
    reviews: seq<Review>,
    ended: map<nat, ContextMark>,  // requests whose context is done, and the error it reports
    now: int,
    step: nat,
    hits: nat, misses: nat, bypasses: nat)

  const Start := State([], [], map[], map[], [], map[], 0, 0, 0, 0, 0)

  // ---- Steps ----

  datatype Step =
    | Ask(spec: Spec, request: nat)
    | LookUp(q: nat)
    | Enter(q: nat)                        // start the flight of this key, or join the one in progress
    | FlightReply(f: nat, reply: Reply)
    | FlightFill(f: nat)                   // store the decision
    | FlightDeliver(f: nat)                // leave the group and answer everyone who joined
    | Receive(q: nat)                      // the select takes the flight's result
    | GiveUp(q: nat)                       // the select takes the caller's own context
    | OwnReply(q: nat, reply: Reply)       // a direct review answers
    | End(request: nat, timedOut: bool)    // a context keeps the first error it ends with
    | Evict(key: Key)
    | SetClock(time: int)

  ghost predicate MayReply(c: Config, s: State, r: nat, reply: Reply)
    requires r < |s.reviews| && s.reviews[r].caller < |s.questions|
  {
    match c.environment
    case Anything => true
    case Honest =>
      reply.Fault? && IsContextError(reply.error) ==> s.questions[s.reviews[r].caller].request in s.ended
    case Settled(verdict) => reply == Verdict(verdict(s.reviews[r].spec))
  }

  predicate AtQuestion(s: State, q: nat) {
    q < |s.questions|
  }

  predicate AtFlight(s: State, f: nat, phase: Phase) {
    f < |s.flights| && s.flights[f].phase == phase && s.flights[f].review < |s.reviews|
  }

  ghost predicate Enabled(c: Config, s: State, step: Step) {
    match step
    case Ask(spec, request) => true
    case LookUp(q) => AtQuestion(s, q) && s.questions[q].progress.Asking?
    case Enter(q) =>
      AtQuestion(s, q) && s.questions[q].progress.Missed? && KeyOf(c, s.questions[q].spec).Some?
      && forall k :: k in s.inFlight ==> s.inFlight[k] < |s.flights|
    case FlightReply(f, reply) =>
      AtFlight(s, f, Running) && s.reviews[s.flights[f].review].caller < |s.questions|
      && MayReply(c, s, s.flights[f].review, reply)
    case FlightFill(f) => AtFlight(s, f, Replied) && s.reviews[s.flights[f].review].reply.Some?
    case FlightDeliver(f) => AtFlight(s, f, Filled)
    case Receive(q) =>
      AtQuestion(s, q) && s.questions[q].progress.Waiting?
      && AtFlight(s, s.questions[q].progress.flight, Delivered)
      && s.reviews[s.flights[s.questions[q].progress.flight].review].reply.Some?
    case GiveUp(q) => AtQuestion(s, q) && s.questions[q].progress.Waiting? && s.questions[q].request in s.ended
    case OwnReply(q, reply) =>
      AtQuestion(s, q) && s.questions[q].progress.Reviewing?
      && s.questions[q].progress.review < |s.reviews|
      && s.reviews[s.questions[q].progress.review].caller < |s.questions|
      && MayReply(c, s, s.questions[q].progress.review, reply)
    case End(request, timedOut) => !c.environment.Settled?
    case Evict(key) => true
    case SetClock(time) => true
  }

  /** cache.get: an entry is served up to and including the moment it expires. */
  function DoLookUp(c: Config, s: State, q: nat): State
    requires AtQuestion(s, q)
  {
    var question := s.questions[q];
    match KeyOf(c, question.spec)
    case None =>
      s.(questions := s.questions[q := question.(
           lookup := Bypass, progress := Reviewing(|s.reviews|), issued := question.issued + 1)],
         reviews := s.reviews + [Review(question.spec, q, None)],
         bypasses := s.bypasses + 1)
    case Some(key) =>
      if key in s.cache && s.now <= s.cache[key].expires then
        var e := s.cache[key];
        s.(questions := s.questions[q := question.(
             lookup := Hit, progress := Answered(Verdict(e.allowed), FromCache(e.flight, e.storedAt, s.now)))],
           hits := s.hits + 1)
      else
        s.(questions := s.questions[q := question.(lookup := Miss, progress := Missed)],
           misses := s.misses + 1)
  }

  function DoEnter(c: Config, s: State, q: nat): State
    requires AtQuestion(s, q) && KeyOf(c, s.questions[q].spec).Some?
    requires forall k :: k in s.inFlight ==> s.inFlight[k] < |s.flights|
  {
    var question := s.questions[q];
    var key := KeyOf(c, question.spec).value;
    if key in s.inFlight then
      var f := s.inFlight[key];
      s.(questions := s.questions[q := question.(progress := Waiting(f, s.step))],
         flights := s.flights[f := s.flights[f].(shared := true)])
    else
      s.(questions := s.questions[q := question.(
           progress := Waiting(|s.flights|, s.step), won := true, issued := question.issued + 1)],
         flights := s.flights + [Flight(key, q, |s.reviews|, false, Running, s.step, 0)],
         inFlight := s.inFlight[key := |s.flights|],
         reviews := s.reviews + [Review(question.spec, q, None)])
  }

  /** liveCheck wraps a failure in its own sentinel. */
  function Wrap(reply: Reply): Reply {
    if reply.Fault? then Fault(reply.error + {CreateReview}) else reply
  }

  function SetReply(reviews: seq<Review>, r: nat, reply: Reply): seq<Review>
    requires r < |reviews|
  {
    reviews[r := reviews[r].(reply := Some(reply))]
  }

  /** cache.put, under the TTL of the decision's class; an error passes by. */
  function DoFill(c: Config, s: State, f: nat): State
    requires AtFlight(s, f, Replied) && s.reviews[s.flights[f].review].reply.Some?
  {
    var flight := s.flights[f];
    var reply := s.reviews[flight.review].reply.value;
    var filled := s.(flights := s.flights[f := flight.(phase := Filled)]);
    if reply.Verdict? && TTL(c, reply.allowed) > 0 then
      filled.(cache := s.cache[flight.key :=
        Entry(reply.allowed, s.now, s.now + TTL(c, reply.allowed), f)])
    else filled
  }

  /** The end of sharedLiveCheck once the flight's result is in hand. */
  function DoReceive(s: State, q: nat): State
    requires AtQuestion(s, q) && s.questions[q].progress.Waiting?
    requires AtFlight(s, s.questions[q].progress.flight, Delivered)
    requires s.reviews[s.flights[s.questions[q].progress.flight].review].reply.Some?
  {
    var question := s.questions[q];
    var Waiting(f, joined) := question.progress;
    var reply := s.reviews[s.flights[f].review].reply.value;
    if reply.Fault? && IsContextError(reply.error) && s.flights[f].shared && question.request !in s.ended then
      s.(questions := s.questions[q := question.(
           progress := Reviewing(|s.reviews|), retried := true, issued := question.issued + 1)],
         reviews := s.reviews + [Review(question.spec, q, None)])
    else
      s.(questions := s.questions[q := question.(
           progress := Answered(reply, FromFlight(f, joined)), records := question.records + 1)])
  }

  function Act(c: Config, s: State, step: Step): State
    requires Enabled(c, s, step)
  {
    match step
    case Ask(spec, request) =>
      s.(questions := s.questions + [Question(spec, request, Pending, Asking, false, false, 0, 0)])
    case LookUp(q) => DoLookUp(c, s, q)
    case Enter(q) => DoEnter(c, s, q)
    case FlightReply(f, reply) =>
      s.(flights := s.flights[f := s.flights[f].(phase := Replied)],
         reviews := SetReply(s.reviews, s.flights[f].review, Wrap(reply)))
    case FlightFill(f) => DoFill(c, s, f)
    case FlightDeliver(f) =>
      s.(flights := s.flights[f := s.flights[f].(phase := Delivered, closedAt := s.step)],
         inFlight := s.inFlight - {s.flights[f].key})
    case Receive(q) => DoReceive(s, q)
    case GiveUp(q) =>
      s.(questions := s.questions[q := s.questions[q].(
           progress := Answered(Fault({CreateReview, s.ended[s.questions[q].request]}), FromOwnContext),
           records := s.questions[q].records + 1)])
    case OwnReply(q, reply) =>
      var r := s.questions[q].progress.review;
      s.(questions := s.questions[q := s.questions[q].(
           progress := Answered(Wrap(reply), FromOwnReview(r)), records := s.questions[q].records + 1)],
         reviews := SetReply(s.reviews, r, Wrap(reply)))
    case End(request, timedOut) =>
      if request in s.ended then s
      else s.(ended := s.ended[request := if timedOut then DeadlineExceeded else ContextCanceled])
    case Evict(key) => s.(cache := s.cache - {key})
    case SetClock(time) => s.(now := time)
  }

  function Next(c: Config, s: State, step: Step): State
    requires Enabled(c, s, step)
  {
    Act(c, s, step).(step := s.step + 1)
  }

  // ---- Runs ----

  /** A run is any sequence of steps, each enabled where it is taken. */
  ghost predicate IsRun(c: Config, steps: seq<Step>)
    decreases |steps|, 0
  {
    steps == [] ||
    (IsRun(c, steps[..|steps| - 1])
     && Enabled(c, After(c, steps[..|steps| - 1]), steps[|steps| - 1]))
  }

  ghost function After(c: Config, steps: seq<Step>): State
    requires IsRun(c, steps)
    decreases |steps|, 1
  {
    if steps == [] then Start
    else Next(c, After(c, steps[..|steps| - 1]), steps[|steps| - 1])
  }
}
