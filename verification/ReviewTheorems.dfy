/** What callers are promised, over every run of the review machine. */
module ReviewTheorems {
  import opened Strings
  import opened ReviewSpec
  import opened Errors
  import opened ReviewMachine
  import opened ReviewSafety

  lemma KeyNamesSpec(c: Config, a: Spec, b: Spec)
    requires JsonIsInjective(c) && KeyOf(c, a).Some? && KeyOf(c, a) == KeyOf(c, b)
    ensures a == b
  {
  }

  /** Review r was a live review of this very spec, and this is what it replied. */
  ghost predicate LiveReview(s: State, r: nat, spec: Spec, allowed: bool) {
    r < |s.reviews| && s.reviews[r].spec == spec && s.reviews[r].reply == Some(Verdict(allowed))
  }

  /** Where a decision may come from: an entry no older than the TTL of its own class, a flight that was
      still registered when the caller joined it, or a review of the caller's own. */
  ghost predicate Accounted(c: Config, s: State, q: nat, allowed: bool, source: Source)
    requires q < |s.questions|
  {
    var question := s.questions[q];
    match source
    case FromCache(f, storedAt, servedAt) =>
      && question.lookup.Hit? && f < |s.flights|
      && LiveReview(s, s.flights[f].review, question.spec, allowed)
      && TTL(c, allowed) > 0 && servedAt - storedAt <= TTL(c, allowed)
    case FromFlight(f, joined) =>
      && question.lookup.Miss? && f < |s.flights|
      && LiveReview(s, s.flights[f].review, question.spec, allowed)
      && s.flights[f].openedAt <= joined < s.flights[f].closedAt
    case FromOwnReview(r) =>
      && (question.lookup.Bypass? || question.lookup.Miss?)
      && LiveReview(s, r, question.spec, allowed) && s.reviews[r].caller == q
    case FromOwnContext => false
  }

  /** Freshness: every decision a caller gets was given by a live review of the caller's exact spec. */
  lemma DecisionsAreAccountedFor(c: Config, steps: seq<Step>, q: nat, allowed: bool, source: Source)
    requires IsRun(c, steps) && JsonIsInjective(c)
    requires q < |After(c, steps).questions|
    requires After(c, steps).questions[q].progress == Answered(Verdict(allowed), source)
    ensures Accounted(c, After(c, steps), q, allowed, source)
  {
    RunKeeps(c, steps);
    var s := After(c, steps);
    assert CountsOk(c, s.questions[q]) && ProgressOk(c, s, q);
    match source {
      case FromCache(f, storedAt, servedAt) =>
        assert FlightOk(c, s, f);
        KeyNamesSpec(c, s.questions[q].spec, s.reviews[s.flights[f].review].spec);
      case FromFlight(f, joined) =>
        assert FlightOk(c, s, f);
        KeyNamesSpec(c, s.questions[q].spec, s.reviews[s.flights[f].review].spec);
      case FromOwnReview(r) =>
      case FromOwnContext =>
    }
  }

  /** Only decisions of flights are stored, each under the key of the spec it was given for and for the TTL
      of its class: never an error, and never the result of a bypass or of a retry. */
  lemma OnlyFlightDecisionsAreStored(c: Config, steps: seq<Step>, key: Key, q: nat, reply: Reply, own: nat)
    requires IsRun(c, steps) && key in After(c, steps).cache
    ensures var s := After(c, steps);
      var e := s.cache[key];
      && e.flight < |s.flights| && s.flights[e.flight].review < |s.reviews|
      && LiveReview(s, s.flights[e.flight].review, s.reviews[s.flights[e.flight].review].spec, e.allowed)
      && KeyOf(c, s.reviews[s.flights[e.flight].review].spec) == Some(key)
      && e.expires - e.storedAt == TTL(c, e.allowed) > 0
      && (q < |s.questions| && s.questions[q].progress == Answered(reply, FromOwnReview(own)) ==>
            s.flights[e.flight].review != own)
  {
    RunKeeps(c, steps);
    var s := After(c, steps);
    assert EntryOk(c, s, key);
    assert FlightOk(c, s, s.cache[key].flight);
    if q < |s.questions| {
      assert ProgressOk(c, s, q);
    }
  }

  /** Isolation: a context error that another caller's flight ended with reaches only a caller whose own
      request is finished too. */
  lemma NoForeignCancellation(c: Config, steps: seq<Step>, q: nat, error: Error, f: nat, joined: nat)
    requires IsRun(c, steps)
    requires q < |After(c, steps).questions|
    requires After(c, steps).questions[q].progress == Answered(Fault(error), FromFlight(f, joined))
    requires IsContextError(error)
    ensures var s := After(c, steps);
      f < |s.flights| && (s.flights[f].winner == q || s.questions[q].request in s.ended)
  {
    RunKeeps(c, steps);
    assert ProgressOk(c, After(c, steps), q);
  }

  /** One terminal record per question that was not a hit, once it is answered and never before. */
  lemma OneTerminalRecord(c: Config, steps: seq<Step>, q: nat)
    requires IsRun(c, steps) && q < |After(c, steps).questions|
    ensures var question := After(c, steps).questions[q];
      question.records == if question.progress.Answered? && !question.lookup.Hit? then 1 else 0
  {
    RunKeeps(c, steps);
    assert CountsOk(c, After(c, steps).questions[q]);
  }

  /** At most one flight per key is in progress. */
  lemma OneFlightPerKey(c: Config, steps: seq<Step>, f: nat, g: nat)
    requires IsRun(c, steps) && f < |After(c, steps).flights| && g < |After(c, steps).flights|
    requires !After(c, steps).flights[f].phase.Delivered? && !After(c, steps).flights[g].phase.Delivered?
    requires After(c, steps).flights[f].key == After(c, steps).flights[g].key
    ensures f == g
  {
    RunKeeps(c, steps);
    assert FlightOk(c, After(c, steps), f) && FlightOk(c, After(c, steps), g);
  }

  /** Every answer is what its source said: the reply of the flight's review, the reply of the caller's own
      review, or the error the caller's own context ended with, under the sentinel of a failed review. */
  lemma AnswersAreTheirSources(c: Config, steps: seq<Step>, q: nat, reply: Reply, source: Source)
    requires IsRun(c, steps) && q < |After(c, steps).questions|
    requires After(c, steps).questions[q].progress == Answered(reply, source)
    ensures var s := After(c, steps);
      match source
      case FromCache(f, _, _) =>
        f < |s.flights| && s.flights[f].review < |s.reviews| && s.reviews[s.flights[f].review].reply == Some(reply)
      case FromFlight(f, _) =>
        f < |s.flights| && s.flights[f].review < |s.reviews| && s.reviews[s.flights[f].review].reply == Some(reply)
      case FromOwnReview(r) => r < |s.reviews| && s.reviews[r].reply == Some(reply)
      case FromOwnContext =>
        var request := s.questions[q].request;
        request in s.ended && reply == Fault({CreateReview, s.ended[request]})
  {
    RunKeeps(c, steps);
    assert ProgressOk(c, After(c, steps), q);
  }

  // ---- What the cache serves ----

  /** Whether a step replaces or drops the entry of a key. */
  predicate Replaces(s: State, step: Step, key: Key) {
    step == Evict(key) || (step.FlightFill? && step.f < |s.flights| && s.flights[step.f].key == key)
  }

  /** No step of a run from step n on touches the entry of a key. */
  ghost predicate Undisturbed(c: Config, steps: seq<Step>, n: nat, key: Key)
    requires IsRun(c, steps)
  {
    |steps| <= n ||
    (Undisturbed(c, steps[..|steps| - 1], n, key)
     && !Replaces(After(c, steps[..|steps| - 1]), steps[|steps| - 1], key))
  }

  lemma StepKeepsEntry(c: Config, s: State, step: Step, key: Key)
    requires Enabled(c, s, step) && !Replaces(s, step, key) && key in s.cache
    ensures key in Next(c, s, step).cache && Next(c, s, step).cache[key] == s.cache[key]
  {
  }

  lemma {:induction false} EntryPersists(c: Config, steps: seq<Step>, n: nat, key: Key)
    requires IsRun(c, steps) && n <= |steps| && Undisturbed(c, steps, n, key)
    requires IsRun(c, steps[..n]) && key in After(c, steps[..n]).cache
    ensures key in After(c, steps).cache && After(c, steps).cache[key] == After(c, steps[..n]).cache[key]
  {
    if |steps| == n {
      assert steps[..n] == steps;
    } else {
      var before := steps[..|steps| - 1];
      assert before[..n] == steps[..n];
      EntryPersists(c, before, n, key);
      StepKeepsEntry(c, After(c, before), steps[|steps| - 1], key);
    }
  }

  /** What a lookup finds: an entry of the question's key up to and including the moment it expires is a hit that
      answers the question and asks the API server nothing; anything else is a miss, or a bypass without a key. */
  ghost predicate LooksUp(c: Config, s: State, s': State, q: nat)
    requires q < |s.questions|
  {
    && |s'.questions| == |s.questions|
    && var key, asked := KeyOf(c, s.questions[q].spec), s'.questions[q];
    if key.None? then
      asked.lookup.Bypass? && s'.bypasses == s.bypasses + 1 && s'.hits == s.hits && s'.misses == s.misses
      && s'.reviews == s.reviews + [Review(s.questions[q].spec, q, None)]
    else if key.value in s.cache && s.now <= s.cache[key.value].expires then
      asked.lookup.Hit? && asked.progress.Answered?
      && asked.progress.reply == Verdict(s.cache[key.value].allowed)
      && s'.hits == s.hits + 1 && s'.misses == s.misses && s'.bypasses == s.bypasses && s'.reviews == s.reviews
    else
      asked.lookup.Miss? && asked.progress.Missed?
      && s'.misses == s.misses + 1 && s'.hits == s.hits && s'.bypasses == s.bypasses && s'.reviews == s.reviews
  }

  lemma LookUpServes(c: Config, s: State, q: nat)
    requires Enabled(c, s, LookUp(q))
    ensures LooksUp(c, s, Next(c, s, LookUp(q)), q)
  {
  }

  lemma FillStores(c: Config, s: State, f: nat)
    requires Enabled(c, s, FlightFill(f))
    ensures var reply := s.reviews[s.flights[f].review].reply.value;
      reply.Verdict? ==>
        var ttl := if reply.allowed then c.allowTTL else c.denyTTL;
        ttl > 0 ==>
          var s' := Next(c, s, FlightFill(f));
          s.flights[f].key in s'.cache && s'.cache[s.flights[f].key] == Entry(reply.allowed, s.now, s.now + ttl, f)
  {
  }

  lemma FillIsEnabled(c: Config, steps: seq<Step>, n: nat, f: nat)
    requires n < |steps| && IsRun(c, steps[..n + 1]) && steps[n] == FlightFill(f)
    ensures IsRun(c, steps[..n]) && Enabled(c, After(c, steps[..n]), FlightFill(f))
    ensures After(c, steps[..n + 1]) == Next(c, After(c, steps[..n]), FlightFill(f))
  {
    assert steps[..n + 1][..n] == steps[..n];
  }

  /** A decision that a flight stored, in a run that has not since evicted or replaced it, answers the next lookup of
      its key for exactly as long as the TTL of its own class: up to then a hit with that decision and no live review,
      after it a miss. */
  lemma StoredDecisionIsServed(c: Config, steps: seq<Step>, n: nat, f: nat, q: nat, allowed: bool)
    requires n < |steps| && IsRun(c, steps) && IsRun(c, steps[..n]) && IsRun(c, steps[..n + 1])
    requires steps[n] == FlightFill(f) && AtFlight(After(c, steps[..n]), f, Replied)
    requires After(c, steps[..n]).reviews[After(c, steps[..n]).flights[f].review].reply == Some(Verdict(allowed))
    requires Undisturbed(c, steps, n + 1, After(c, steps[..n]).flights[f].key)
    requires Enabled(c, After(c, steps), LookUp(q))
    requires KeyOf(c, After(c, steps).questions[q].spec) == Some(After(c, steps[..n]).flights[f].key)
    requires (if allowed then c.allowTTL else c.denyTTL) > 0
    ensures var s, s' := After(c, steps), Next(c, After(c, steps), LookUp(q));
      var ttl := if allowed then c.allowTTL else c.denyTTL;
      && |s'.questions| == |s.questions| && s'.reviews == s.reviews
      && if s.now <= After(c, steps[..n]).now + ttl
         then s'.questions[q].lookup.Hit? && s'.hits == s.hits + 1 && s'.questions[q].progress.Answered?
              && s'.questions[q].progress.reply == Verdict(allowed)
         else s'.questions[q].lookup.Miss? && s'.misses == s.misses + 1 && s'.questions[q].progress.Missed?
  {
    FillIsEnabled(c, steps, n, f);
    FillStores(c, After(c, steps[..n]), f);
    EntryPersists(c, steps, n + 1, After(c, steps[..n]).flights[f].key);
    LookUpServes(c, After(c, steps), q);
  }

  // ---- The number of reviews ----

  /** Questions that missed and have not issued a review: they wait on another's flight or were answered by it. */
  const IDLE := (q: Question) => B(q.lookup.Miss? && !q.won && !q.retried)
  /** Questions that missed and issued two: they won a flight and still retried. */
  const TWICE := (q: Question) => B(q.won && q.retried)
  const LOOKED := (q: Question) => B(!q.lookup.Pending?)

  lemma {:induction false} TotalsBalance(c: Config, questions: seq<Question>)
    requires forall q :: q in questions ==> CountsOk(c, q)
    ensures Total(questions, ISSUED) + Total(questions, IDLE)
         == Total(questions, MISSES) + Total(questions, BYPASSES) + Total(questions, TWICE)
    ensures Total(questions, LOOKED)
         == Total(questions, HITS) + Total(questions, MISSES) + Total(questions, BYPASSES)
    ensures !c.environment.Anything? || (forall spec :: KeyOf(c, spec).None?) ==> Total(questions, TWICE) == 0
  {
    if questions != [] {
      var n := |questions| - 1;
      TotalsBalance(c, questions[..n]);
      assert CountsOk(c, questions[n]);
    }
  }

  /** The exact account, whatever the API server does: live reviews and idle misses make up the misses, the
      bypasses and the flights whose winner retried. Every question looked up is a hit, a miss or a bypass. */
  lemma ReviewsAccount(c: Config, steps: seq<Step>)
    requires IsRun(c, steps)
    ensures var s := After(c, steps);
      |s.reviews| + Total(s.questions, IDLE) == s.misses + s.bypasses + Total(s.questions, TWICE)
    ensures var s := After(c, steps);
      s.hits + s.misses + s.bypasses == Total(s.questions, LOOKED)
    ensures !c.environment.Anything? || (forall spec :: KeyOf(c, spec).None?) ==>
      Total(After(c, steps).questions, TWICE) == 0
  {
    RunKeeps(c, steps);
    var s := After(c, steps);
    forall q | q in s.questions
      ensures CountsOk(c, q)
    {
      var i :| 0 <= i < |s.questions| && s.questions[i] == q;
      assert CountsOk(c, s.questions[i]);
    }
    TotalsBalance(c, s.questions);
  }

  /** A server that reports a context error only once the review's own context is done never pushes the live
      reviews past misses plus bypasses. */
  lemma ReviewsAreBounded(c: Config, steps: seq<Step>)
    requires IsRun(c, steps) && c.environment.Honest?
    ensures var s := After(c, steps); |s.reviews| <= s.misses + s.bypasses
  {
    ReviewsAccount(c, steps);
  }

  // ---- A settled verdict ----

  /** With one error-free verdict per question, the cache and the flights are invisible: every answer, from
      whatever source, is the verdict on the caller's own question. */
  lemma SettledAnswersAreTheVerdict(c: Config, steps: seq<Step>, q: nat, reply: Reply, source: Source)
    requires IsRun(c, steps) && JsonIsInjective(c) && c.environment.Settled?
    requires q < |After(c, steps).questions|
    requires After(c, steps).questions[q].progress == Answered(reply, source)
    ensures reply == Verdict(c.environment.verdict(After(c, steps).questions[q].spec))
  {
    RunKeeps(c, steps);
    var s := After(c, steps);
    assert CountsOk(c, s.questions[q]) && ProgressOk(c, s, q);
    match source {
      case FromCache(f, storedAt, servedAt) =>
        assert FlightOk(c, s, f) && ReplyOk(c, s, s.flights[f].review);
        KeyNamesSpec(c, s.questions[q].spec, s.reviews[s.flights[f].review].spec);
      case FromFlight(f, joined) =>
        assert FlightOk(c, s, f) && ReplyOk(c, s, s.flights[f].review);
        KeyNamesSpec(c, s.questions[q].spec, s.reviews[s.flights[f].review].spec);
      case FromOwnReview(r) =>
        assert ReviewOk(s, r) && ReplyOk(c, s, r);
      case FromOwnContext =>
    }
  }

  // ---- Why the assumption about context errors is needed ----

  lemma Take(c: Config, steps: seq<Step>, step: Step) returns (more: seq<Step>)
    requires IsRun(c, steps) && Enabled(c, After(c, steps), step)
    ensures IsRun(c, more)
    ensures After(c, more) == Next(c, After(c, steps), step)
  {
    more := steps + [step];
    assert more[..|steps|] == steps;
  }

  /** A state with an empty cache in which no context has ended. */
  function Snapshot(
    questions: seq<Question>, flights: seq<Flight>, inFlight: map<Key, nat>, reviews: seq<Review>,
    step: nat, misses: nat): State
  {
    State(questions, flights, inFlight, map[], reviews, map[], 0, step, 0, misses, 0)
  }

  function Caller(spec: Spec, request: nat, progress: Progress, won: bool, retried: bool): Question {
    Question(spec, request, if progress.Asking? then Pending else Miss, progress, won, retried, B(won) + B(retried), 0)
  }

  lemma Asks(c: Config, spec: Spec)
    ensures var s1 := Next(c, Start, Ask(spec, 0));
      && s1 == Snapshot([Caller(spec, 0, Asking, false, false)], [], map[], [], 1, 0)
      && Next(c, s1, Ask(spec, 1)) == Snapshot(
           [Caller(spec, 0, Asking, false, false), Caller(spec, 1, Asking, false, false)], [], map[], [], 2, 0)
  {
  }

  lemma Misses(c: Config, spec: Spec, s: State)
    requires KeyOf(c, spec).Some?
    requires s == Snapshot(
      [Caller(spec, 0, Asking, false, false), Caller(spec, 1, Asking, false, false)], [], map[], [], 2, 0)
    ensures Enabled(c, s, LookUp(0))
    ensures Next(c, s, LookUp(0)) == Snapshot(
      [Caller(spec, 0, Missed, false, false), Caller(spec, 1, Asking, false, false)], [], map[], [], 3, 1)
  {
  }

  lemma MissesToo(c: Config, spec: Spec, s: State)
    requires KeyOf(c, spec).Some?
    requires s == Snapshot(
      [Caller(spec, 0, Missed, false, false), Caller(spec, 1, Asking, false, false)], [], map[], [], 3, 1)
    ensures Enabled(c, s, LookUp(1))
    ensures Next(c, s, LookUp(1)) == Snapshot(
      [Caller(spec, 0, Missed, false, false), Caller(spec, 1, Missed, false, false)], [], map[], [], 4, 2)
  {
  }

  /** Two callers of one question both miss. */
  lemma TwoCallersMiss(c: Config, spec: Spec) returns (steps: seq<Step>)
    requires KeyOf(c, spec).Some?
    ensures IsRun(c, steps)
    ensures After(c, steps) == Snapshot(
      [Caller(spec, 0, Missed, false, false), Caller(spec, 1, Missed, false, false)], [], map[], [], 4, 2)
  {
    Asks(c, spec);
    steps := Take(c, [], Ask(spec, 0));
    steps := Take(c, steps, Ask(spec, 1));
    Misses(c, spec, After(c, steps));
    steps := Take(c, steps, LookUp(0));
    MissesToo(c, spec, After(c, steps));
    steps := Take(c, steps, LookUp(1));
  }

  lemma EnteringStartsAFlight(c: Config, spec: Spec, s: State)
    requires KeyOf(c, spec).Some?
    requires s == Snapshot(
      [Caller(spec, 0, Missed, false, false), Caller(spec, 1, Missed, false, false)], [], map[], [], 4, 2)
    ensures var key := KeyOf(c, spec).value;
      && Enabled(c, s, Enter(0))
      && Next(c, s, Enter(0)) == Snapshot(
           [Caller(spec, 0, Waiting(0, 4), true, false), Caller(spec, 1, Missed, false, false)],
           [Flight(key, 0, 0, false, Running, 4, 0)], map[key := 0], [Review(spec, 0, None)], 5, 2)
  {
  }

  lemma EnteringJoinsIt(c: Config, spec: Spec, s: State)
    requires KeyOf(c, spec).Some?
    requires var key := KeyOf(c, spec).value;
      s == Snapshot(
        [Caller(spec, 0, Waiting(0, 4), true, false), Caller(spec, 1, Missed, false, false)],
        [Flight(key, 0, 0, false, Running, 4, 0)], map[key := 0], [Review(spec, 0, None)], 5, 2)
    ensures var key := KeyOf(c, spec).value;
      && Enabled(c, s, Enter(1))
      && Next(c, s, Enter(1)) == Snapshot(
           [Caller(spec, 0, Waiting(0, 4), true, false), Caller(spec, 1, Waiting(0, 5), false, false)],
           [Flight(key, 0, 0, true, Running, 4, 0)], map[key := 0], [Review(spec, 0, None)], 6, 2)
  {
  }

  /** One starts a flight and the other joins it. */
  lemma TwoCallersShareAFlight(c: Config, spec: Spec) returns (steps: seq<Step>)
    requires KeyOf(c, spec).Some?
    ensures IsRun(c, steps)
    ensures var key := KeyOf(c, spec).value;
      After(c, steps) == Snapshot(
        [Caller(spec, 0, Waiting(0, 4), true, false), Caller(spec, 1, Waiting(0, 5), false, false)],
        [Flight(key, 0, 0, true, Running, 4, 0)], map[key := 0], [Review(spec, 0, None)], 6, 2)
  {
    steps := TwoCallersMiss(c, spec);
    EnteringStartsAFlight(c, spec, After(c, steps));
    steps := Take(c, steps, Enter(0));
    EnteringJoinsIt(c, spec, After(c, steps));
    steps := Take(c, steps, Enter(1));
  }

  /** The flight fails with a deadline neither of them reached. */
  lemma TheFlightTimesOut(c: Config, spec: Spec) returns (steps: seq<Step>)
    requires c.environment.Anything? && KeyOf(c, spec).Some?
    ensures IsRun(c, steps)
    ensures var key := KeyOf(c, spec).value;
      After(c, steps) == Snapshot(
        [Caller(spec, 0, Waiting(0, 4), true, false), Caller(spec, 1, Waiting(0, 5), false, false)],
        [Flight(key, 0, 0, true, Delivered, 4, 8)], map[],
        [Review(spec, 0, Some(Wrap(Fault({DeadlineExceeded}))))], 9, 2)
  {
    var key := KeyOf(c, spec).value;
    var failed := Wrap(Fault({DeadlineExceeded}));
    steps := TwoCallersShareAFlight(c, spec);
    steps := Take(c, steps, FlightReply(0, Fault({DeadlineExceeded})));
    assert After(c, steps).flights == [Flight(key, 0, 0, true, Replied, 4, 0)];
    assert After(c, steps).reviews == [Review(spec, 0, Some(failed))];
    steps := Take(c, steps, FlightFill(0));
    assert After(c, steps).flights == [Flight(key, 0, 0, true, Filled, 4, 0)];
    steps := Take(c, steps, FlightDeliver(0));
    assert After(c, steps).inFlight == map[];
  }

  /** The winner and the joiner both retry: three live reviews for two misses. */
  lemma DishonestTimeoutsCostAReview(c: Config, spec: Spec) returns (steps: seq<Step>)
    requires c.environment.Anything? && KeyOf(c, spec).Some?
    ensures IsRun(c, steps)
    ensures var s := After(c, steps); |s.reviews| == 3 && s.misses == 2 && s.bypasses == 0
  {
    steps := TheFlightTimesOut(c, spec);
    steps := Take(c, steps, Receive(0));
    assert After(c, steps).questions ==
      [Caller(spec, 0, Reviewing(1), true, true), Caller(spec, 1, Waiting(0, 5), false, false)];
    steps := Take(c, steps, Receive(1));
  }

  ghost predicate Bounded(c: Config, steps: seq<Step>)
    requires IsRun(c, steps)
  {
    var s := After(c, steps);
    |s.reviews| <= s.misses + s.bypasses
  }

  /** The live reviews stay within misses plus bypasses in every run exactly when the API server reports context
      errors only for finished contexts, or answers without error, or no spec can be cached at all. */
  lemma ReviewsBoundedExactly(c: Config)
    ensures (forall steps :: IsRun(c, steps) ==> Bounded(c, steps))
      <==> !c.environment.Anything? || forall spec :: KeyOf(c, spec).None?
  {
    if !c.environment.Anything? || forall spec :: KeyOf(c, spec).None? {
      forall steps | IsRun(c, steps)
        ensures Bounded(c, steps)
      {
        ReviewsAccount(c, steps);
      }
    } else {
      var spec :| KeyOf(c, spec).Some?;
      var steps := DishonestTimeoutsCostAReview(c, spec);
      assert !Bounded(c, steps);
    }
  }
}
