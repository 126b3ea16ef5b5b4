/** What every step of the review machine keeps. */
module ReviewSafety {
  import opened Strings
  import opened ReviewSpec
  import opened Errors
  import opened ReviewMachine

  function B(b: bool): nat {
    if b then 1 else 0
  }

  /** The reply of a flight's review. */
  function ReplyOf(s: State, f: nat): Option<Reply>
    requires f < |s.flights| && s.flights[f].review < |s.reviews|
  {
    s.reviews[s.flights[f].review].reply
  }

  ghost predicate ReviewOk(s: State, r: nat)
    requires r < |s.reviews|
  {
    var review := s.reviews[r];
    review.caller < |s.questions| && review.spec == s.questions[review.caller].spec
  }

  ghost predicate ReplyOk(c: Config, s: State, r: nat)
    requires r < |s.reviews| && ReviewOk(s, r)
  {
    var review := s.reviews[r];
    review.reply.Some? ==>
      match c.environment
      case Anything => true
      case Honest =>
        review.reply.value.Fault? && IsContextError(review.reply.value.error) ==>
          s.questions[review.caller].request in s.ended
      case Settled(verdict) => review.reply.value == Verdict(verdict(review.spec))
  }

  ghost predicate FlightOk(c: Config, s: State, f: nat)
    requires f < |s.flights|
  {
    var flight := s.flights[f];
    && flight.review < |s.reviews|
    && s.reviews[flight.review].caller == flight.winner < |s.questions| && s.questions[flight.winner].won
    && KeyOf(c, s.reviews[flight.review].spec) == Some(flight.key)
    && (flight.phase.Running? <==> ReplyOf(s, f).None?)
    && flight.openedAt < s.step
    && (flight.phase.Delivered? ==> flight.openedAt < flight.closedAt < s.step)
    && (!flight.phase.Delivered? ==> flight.key in s.inFlight && s.inFlight[flight.key] == f)
  }

  ghost predicate GroupOk(s: State, k: Key)
    requires k in s.inFlight
  {
    var f := s.inFlight[k];
    f < |s.flights| && s.flights[f].key == k && !s.flights[f].phase.Delivered?
  }

  ghost predicate EntryOk(c: Config, s: State, k: Key)
    requires k in s.cache
  {
    var e := s.cache[k];
    && e.flight < |s.flights| && s.flights[e.flight].review < |s.reviews|
    && s.flights[e.flight].key == k
    && ReplyOf(s, e.flight) == Some(Verdict(e.allowed))
    && e.expires == e.storedAt + TTL(c, e.allowed)
    && TTL(c, e.allowed) > 0
  }

  /** No flight runs this review. */
  ghost predicate NotShared(s: State, r: nat) {
    forall f :: 0 <= f < |s.flights| ==> s.flights[f].review != r
  }

  /** The source of an answer accounts for it. */
  ghost predicate SourceOk(c: Config, s: State, q: nat, reply: Reply, source: Source)
    requires q < |s.questions|
  {
    var question := s.questions[q];
    match source
    case FromCache(f, storedAt, servedAt) =>
      && question.lookup.Hit?
      && f < |s.flights| && s.flights[f].review < |s.reviews|
      && KeyOf(c, question.spec) == Some(s.flights[f].key)
      && reply.Verdict? && ReplyOf(s, f) == Some(reply)
      && TTL(c, reply.allowed) > 0 && servedAt <= storedAt + TTL(c, reply.allowed)
    case FromFlight(f, joined) =>
      && question.lookup.Miss? && !question.retried
      && f < |s.flights| && s.flights[f].review < |s.reviews|
      && KeyOf(c, question.spec) == Some(s.flights[f].key)
      && s.flights[f].phase.Delivered? && ReplyOf(s, f) == Some(reply)
      && s.flights[f].openedAt <= joined < s.flights[f].closedAt
      && (question.won <==> s.flights[f].winner == q)
      && (reply.Fault? && IsContextError(reply.error) && !question.won ==> question.request in s.ended)
    case FromOwnReview(r) =>
      && (question.lookup.Bypass? || question.retried)
      && r < |s.reviews| && s.reviews[r] == Review(question.spec, q, Some(reply))
      && NotShared(s, r)
    case FromOwnContext =>
      question.lookup.Miss? && !question.retried && question.request in s.ended
      && reply == Fault({CreateReview, s.ended[question.request]})
  }

  ghost predicate ProgressOk(c: Config, s: State, q: nat)
    requires q < |s.questions|
  {
    var question := s.questions[q];
    match question.progress
    case Asking => question.lookup.Pending?
    case Missed => question.lookup.Miss? && !question.won && !question.retried
    case Waiting(f, joined) =>
      && question.lookup.Miss? && !question.retried
      && f < |s.flights|
      && KeyOf(c, question.spec) == Some(s.flights[f].key)
      && s.flights[f].openedAt <= joined < s.step
      && (s.flights[f].phase.Delivered? ==> joined < s.flights[f].closedAt)
      && (question.won <==> s.flights[f].winner == q)
      && (!question.won ==> s.flights[f].shared)
    case Reviewing(r) =>
      && (question.lookup.Bypass? || question.retried)
      && r < |s.reviews| && s.reviews[r] == Review(question.spec, q, None)
      && NotShared(s, r)
    case Answered(reply, source) => SourceOk(c, s, q, reply, source)
  }

  ghost predicate CountsOk(c: Config, question: Question) {
    && (question.lookup.Pending? <==> question.progress.Asking?)
    && (question.lookup.Bypass? ==> KeyOf(c, question.spec).None?)
    && (question.lookup.Hit? || question.lookup.Miss? ==> KeyOf(c, question.spec).Some?)
    && (question.lookup.Hit? ==> question.progress.Answered?)
    && (question.won || question.retried ==> question.lookup.Miss?)
    && question.issued == B(question.lookup.Bypass?) + B(question.won) + B(question.retried)
    && question.records == B(question.progress.Answered? && !question.lookup.Hit?)
    && (!c.environment.Anything? ==> !(question.won && question.retried))
  }

  // ---- Totals over the questions ----

  function Total(questions: seq<Question>, weight: Question -> nat): nat {
    if questions == [] then 0
    else Total(questions[..|questions| - 1], weight) + weight(questions[|questions| - 1])
  }

  lemma {:induction false} TotalUpdate(questions: seq<Question>, q: nat, question: Question, weight: Question -> nat)
    requires q < |questions|
    ensures Total(questions[q := question], weight) + weight(questions[q])
         == Total(questions, weight) + weight(question)
  {
    var n := |questions| - 1;
    if q < n {
      TotalUpdate(questions[..n], q, question, weight);
      assert questions[q := question][..n] == questions[..n][q := question];
    } else {
      assert questions[q := question][..n] == questions[..n];
    }
  }

  lemma TotalAppend(questions: seq<Question>, question: Question, weight: Question -> nat)
    ensures Total(questions + [question], weight) == Total(questions, weight) + weight(question)
  {
    assert (questions + [question])[..|questions|] == questions;
  }

  const ISSUED := (q: Question) => q.issued
  const HITS := (q: Question) => B(q.lookup.Hit?)
  const MISSES := (q: Question) => B(q.lookup.Miss?)
  const BYPASSES := (q: Question) => B(q.lookup.Bypass?)

  ghost predicate TotalsOk(s: State) {
    && |s.reviews| == Total(s.questions, ISSUED)
    && s.hits == Total(s.questions, HITS)
    && s.misses == Total(s.questions, MISSES)
    && s.bypasses == Total(s.questions, BYPASSES)
  }

  ghost predicate Inv(c: Config, s: State) {
    && (forall r :: 0 <= r < |s.reviews| ==> ReviewOk(s, r) && ReplyOk(c, s, r))
    && (forall f :: 0 <= f < |s.flights| ==> FlightOk(c, s, f))
    && (forall f, g :: 0 <= f < g < |s.flights| ==> s.flights[f].review != s.flights[g].review)
    && (forall k :: k in s.inFlight ==> GroupOk(s, k))
    && (forall k :: k in s.cache ==> EntryOk(c, s, k))
    && (forall q :: 0 <= q < |s.questions| ==> CountsOk(c, s.questions[q]) && ProgressOk(c, s, q))
    && (c.environment.Settled? ==> s.ended == map[])
    && TotalsOk(s)
  }

  // ---- How a step changes what already exists ----

  ghost predicate FlightEvolves(s: State, s': State, f: nat)
    requires f < |s.flights|
  {
    && f < |s'.flights|
    && var a, b := s.flights[f], s'.flights[f];
    && b.key == a.key && b.winner == a.winner && b.review == a.review && b.openedAt == a.openedAt
    && (a.shared ==> b.shared)
    && (a.phase.Delivered? ==> b == a)
    && (b.phase.Delivered? && !a.phase.Delivered? ==> b.closedAt == s.step)
  }

  ghost predicate ReviewEvolves(s: State, s': State, r: nat)
    requires r < |s.reviews|
  {
    && r < |s'.reviews|
    && var a, b := s.reviews[r], s'.reviews[r];
    b.spec == a.spec && b.caller == a.caller && (a.reply.Some? ==> b == a)
  }

  ghost predicate Evolves(s: State, s': State) {
    && |s.questions| <= |s'.questions| && |s.flights| <= |s'.flights|
    && (forall f :: |s.flights| <= f < |s'.flights| ==> s'.flights[f].review >= |s.reviews|)
    && (forall q :: 0 <= q < |s.questions| ==>
          s'.questions[q].spec == s.questions[q].spec && s'.questions[q].request == s.questions[q].request
          && (s.questions[q].won ==> s'.questions[q].won))
    && (forall f :: 0 <= f < |s.flights| ==> FlightEvolves(s, s', f))
    && (forall r :: 0 <= r < |s.reviews| ==> ReviewEvolves(s, s', r))
    && (forall k :: k in s.ended ==> k in s'.ended && s'.ended[k] == s.ended[k])
    && s'.step == s.step + 1
  }

  /** The usual shape of a step that touches one question. */
  lemma EvolvesOne(s: State, s': State, q: nat)
    requires q < |s.questions| == |s'.questions| && s'.questions == s.questions[q := s'.questions[q]]
    requires s'.questions[q].spec == s.questions[q].spec && s'.questions[q].request == s.questions[q].request
    requires s.questions[q].won ==> s'.questions[q].won
    requires s'.flights == s.flights && s.reviews <= s'.reviews
    requires s'.ended == s.ended && s'.step == s.step + 1
    ensures Evolves(s, s')
  {
  }

  /** The shape of a step that moves one flight on without answering its review. */
  lemma EvolvesFlight(s: State, s': State, f: nat)
    requires f < |s.flights| == |s'.flights| && s'.flights == s.flights[f := s'.flights[f]]
    requires FlightEvolves(s, s', f)
    requires s'.questions == s.questions && s'.reviews == s.reviews
    requires s'.ended == s.ended && s'.step == s.step + 1
    ensures Evolves(s, s')
  {
  }

  lemma NotSharedStays(s: State, s': State, r: nat)
    requires Evolves(s, s') && r < |s.reviews| && NotShared(s, r)
    ensures NotShared(s', r)
  {
    forall f | 0 <= f < |s.flights|
      ensures s'.flights[f].review == s.flights[f].review
    {
      assert FlightEvolves(s, s', f);
    }
  }

  /** A question nothing happened to stays in order. */
  lemma QuestionStays(c: Config, s: State, s': State, q: nat)
    requires Inv(c, s) && Evolves(s, s') && q < |s.questions| && s'.questions[q] == s.questions[q]
    requires s.questions[q].progress.Reviewing? ==>
      var r := s.questions[q].progress.review;
      r < |s.reviews| && r < |s'.reviews| && s'.reviews[r] == s.reviews[r]
    ensures ProgressOk(c, s', q)
  {
    assert ProgressOk(c, s, q);
    match s.questions[q].progress {
      case Asking =>
      case Missed =>
      case Waiting(f, joined) => assert FlightEvolves(s, s', f);
      case Reviewing(r) => NotSharedStays(s, s', r);
      case Answered(reply, source) =>
        match source {
          case FromCache(f, storedAt, servedAt) =>
            assert FlightEvolves(s, s', f) && ReviewEvolves(s, s', s.flights[f].review);
          case FromFlight(f, joined) =>
            assert FlightEvolves(s, s', f) && ReviewEvolves(s, s', s.flights[f].review);
          case FromOwnReview(r) =>
            NotSharedStays(s, s', r);
            assert ReviewEvolves(s, s', r);
          case FromOwnContext =>
        }
    }
  }

  /** So does a cache entry. */
  lemma EntryStays(c: Config, s: State, s': State, k: Key)
    requires k in s.cache && EntryOk(c, s, k)
    requires Evolves(s, s') && k in s'.cache && s'.cache[k] == s.cache[k]
    ensures EntryOk(c, s', k)
  {
    var f := s.cache[k].flight;
    assert FlightEvolves(s, s', f) && ReviewEvolves(s, s', s.flights[f].review);
  }

  // ---- Every step keeps the invariant ----

  /** A step that touches no review, flight or existing question, and adds nothing to the cache. */
  lemma RestStays(c: Config, s: State, s': State)
    requires Inv(c, s) && Evolves(s, s')
    requires s'.reviews == s.reviews && s'.flights == s.flights && s'.inFlight == s.inFlight
    requires s.questions <= s'.questions
    requires forall k :: k in s'.cache ==> k in s.cache && s'.cache[k] == s.cache[k]
    ensures forall q :: 0 <= q < |s.questions| ==> CountsOk(c, s'.questions[q]) && ProgressOk(c, s', q)
    ensures forall r :: 0 <= r < |s'.reviews| ==> ReviewOk(s', r) && ReplyOk(c, s', r)
    ensures forall f :: 0 <= f < |s'.flights| ==> FlightOk(c, s', f)
    ensures forall k :: k in s'.inFlight ==> GroupOk(s', k)
    ensures forall k :: k in s'.cache ==> EntryOk(c, s', k)
  {
    forall q | 0 <= q < |s.questions|
      ensures CountsOk(c, s'.questions[q]) && ProgressOk(c, s', q)
    {
      assert ProgressOk(c, s, q);
      QuestionStays(c, s, s', q);
    }
    forall r | 0 <= r < |s'.reviews|
      ensures ReviewOk(s', r) && ReplyOk(c, s', r)
    {
      assert ReviewOk(s, r) && ReplyOk(c, s, r);
    }
    forall f | 0 <= f < |s'.flights|
      ensures FlightOk(c, s', f)
    {
      assert FlightOk(c, s, f);
    }
    forall k | k in s'.cache
      ensures EntryOk(c, s', k)
    {
      EntryStays(c, s, s', k);
    }
    assert forall k :: k in s'.inFlight ==> GroupOk(s, k);
  }

  lemma AskKeeps(c: Config, s: State, spec: Spec, request: nat)
    requires Inv(c, s)
    ensures Inv(c, Next(c, s, Ask(spec, request)))
  {
    var s' := Next(c, s, Ask(spec, request));
    var question := Question(spec, request, Pending, Asking, false, false, 0, 0);
    assert Evolves(s, s');
    RestStays(c, s, s');
    assert CountsOk(c, question) && ProgressOk(c, s', |s.questions|);
    TotalAppend(s.questions, question, ISSUED);
    TotalAppend(s.questions, question, HITS);
    TotalAppend(s.questions, question, MISSES);
    TotalAppend(s.questions, question, BYPASSES);
  }

  /** The parts that a step touching one question, and perhaps issuing a review for it, leaves in order. */
  lemma OthersStay(c: Config, s: State, s': State, q: nat)
    requires Inv(c, s) && Evolves(s, s') && q < |s.questions|
    requires s'.questions == s.questions[q := s'.questions[q]]
    requires s.reviews <= s'.reviews && |s.flights| <= |s'.flights|
    requires forall r :: |s.reviews| <= r < |s'.reviews| ==>
      s'.reviews[r] == Review(s.questions[q].spec, q, None)
    requires forall f :: 0 <= f < |s.flights| ==> s'.flights[f].phase == s.flights[f].phase
    requires s'.cache == s.cache && s'.ended == s.ended
    requires forall k :: k in s.inFlight ==> k in s'.inFlight && s'.inFlight[k] == s.inFlight[k]
    ensures forall p :: 0 <= p < |s.questions| && p != q ==> CountsOk(c, s'.questions[p]) && ProgressOk(c, s', p)
    ensures forall r :: 0 <= r < |s'.reviews| ==> ReviewOk(s', r) && ReplyOk(c, s', r)
    ensures forall f :: 0 <= f < |s.flights| ==> FlightOk(c, s', f)
    ensures forall k :: k in s'.cache ==> EntryOk(c, s', k)
  {
    forall p | 0 <= p < |s.questions| && p != q
      ensures CountsOk(c, s'.questions[p]) && ProgressOk(c, s', p)
    {
      assert ProgressOk(c, s, p);
      QuestionStays(c, s, s', p);
    }
    forall r | 0 <= r < |s'.reviews|
      ensures ReviewOk(s', r) && ReplyOk(c, s', r)
    {
      if r < |s.reviews| {
        assert ReviewOk(s, r) && ReplyOk(c, s, r) && s'.reviews[r] == s.reviews[r];
      }
    }
    forall f | 0 <= f < |s.flights|
      ensures FlightOk(c, s', f)
    {
      assert FlightOk(c, s, f) && FlightEvolves(s, s', f);
      assert s'.reviews[s.flights[f].review] == s.reviews[s.flights[f].review];
    }
    forall k | k in s'.cache
      ensures EntryOk(c, s', k)
    {
      EntryStays(c, s, s', k);
    }
  }

  /** The totals after one question changes. */
  lemma TotalsFollow(s: State, s': State, q: nat)
    requires TotalsOk(s) && q < |s.questions| == |s'.questions|
    requires s'.questions == s.questions[q := s'.questions[q]]
    requires |s'.reviews| - |s.reviews| == s'.questions[q].issued - s.questions[q].issued
    requires s'.hits - s.hits == HITS(s'.questions[q]) - HITS(s.questions[q])
    requires s'.misses - s.misses == MISSES(s'.questions[q]) - MISSES(s.questions[q])
    requires s'.bypasses - s.bypasses == BYPASSES(s'.questions[q]) - BYPASSES(s.questions[q])
    ensures TotalsOk(s')
  {
    TotalUpdate(s.questions, q, s'.questions[q], ISSUED);
    TotalUpdate(s.questions, q, s'.questions[q], HITS);
    TotalUpdate(s.questions, q, s'.questions[q], MISSES);
    TotalUpdate(s.questions, q, s'.questions[q], BYPASSES);
  }

  lemma LookedUpOk(c: Config, s: State, q: nat)
    requires Inv(c, s) && Enabled(c, s, LookUp(q))
    ensures var s' := Next(c, s, LookUp(q)); CountsOk(c, s'.questions[q]) && ProgressOk(c, s', q)
  {
    assert CountsOk(c, s.questions[q]) && ProgressOk(c, s, q);
    match KeyOf(c, s.questions[q].spec) {
      case None => FlightsHaveReviews(c, s);
      case Some(key) =>
        if key in s.cache && s.now <= s.cache[key].expires {
          assert EntryOk(c, s, key);
        }
    }
  }

  lemma LookUpKeeps(c: Config, s: State, q: nat)
    requires Inv(c, s) && Enabled(c, s, LookUp(q))
    ensures Inv(c, Next(c, s, LookUp(q)))
  {
    var s' := Next(c, s, LookUp(q));
    assert CountsOk(c, s.questions[q]);
    LookedUpOk(c, s, q);
    EvolvesOne(s, s', q);
    Assemble(c, s, s', q);
  }

  lemma GroupStays(c: Config, s: State, s': State)
    requires Inv(c, s) && Evolves(s, s')
    requires |s.flights| <= |s'.flights|
    requires forall f :: 0 <= f < |s.flights| ==> s'.flights[f].phase == s.flights[f].phase
    ensures forall k :: k in s.inFlight && k in s'.inFlight && s'.inFlight[k] == s.inFlight[k] ==> GroupOk(s', k)
  {
    forall k | k in s.inFlight && k in s'.inFlight && s'.inFlight[k] == s.inFlight[k]
      ensures GroupOk(s', k)
    {
      assert GroupOk(s, k) && FlightEvolves(s, s', s.inFlight[k]);
    }
  }

  lemma FlightsStayDistinct(c: Config, s: State, s': State)
    requires Inv(c, s) && Evolves(s, s') && |s.flights| <= |s'.flights| <= |s.flights| + 1
    requires |s'.flights| > |s.flights| ==> s'.flights[|s.flights|].review == |s.reviews|
    ensures forall f, g :: 0 <= f < g < |s'.flights| ==> s'.flights[f].review != s'.flights[g].review
  {
    forall f | 0 <= f < |s.flights|
      ensures s'.flights[f].review == s.flights[f].review < |s.reviews|
    {
      assert FlightOk(c, s, f) && FlightEvolves(s, s', f);
    }
  }

  /** The frame of a step that touches one question, put together. */
  lemma Assemble(c: Config, s: State, s': State, q: nat)
    requires Inv(c, s) && Evolves(s, s') && q < |s.questions|
    requires s'.questions == s.questions[q := s'.questions[q]]
    requires CountsOk(c, s'.questions[q]) && ProgressOk(c, s', q)
    requires s'.reviews == s.reviews
      || s'.reviews == s.reviews + [Review(s.questions[q].spec, q, None)]
    requires |s'.reviews| - |s.reviews| == s'.questions[q].issued - s.questions[q].issued
    requires s'.hits - s.hits == HITS(s'.questions[q]) - HITS(s.questions[q])
    requires s'.misses - s.misses == MISSES(s'.questions[q]) - MISSES(s.questions[q])
    requires s'.bypasses - s.bypasses == BYPASSES(s'.questions[q]) - BYPASSES(s.questions[q])
    requires s'.cache == s.cache && s'.ended == s.ended
    requires |s.flights| <= |s'.flights| <= |s.flights| + 1
    requires forall f :: 0 <= f < |s.flights| ==> s'.flights[f].phase == s.flights[f].phase
    requires |s'.flights| > |s.flights| ==>
      s'.flights[|s.flights|].review == |s.reviews| && FlightOk(c, s', |s.flights|)
    requires forall k :: k in s.inFlight ==> k in s'.inFlight && s'.inFlight[k] == s.inFlight[k]
    requires forall k :: k in s'.inFlight && k !in s.inFlight ==> GroupOk(s', k)
    ensures Inv(c, s')
  {
    GroupStays(c, s, s');
    OthersStay(c, s, s', q);
    TotalsFollow(s, s', q);
    FlightsStayDistinct(c, s, s');
  }

  lemma EvolvesJoin(s: State, s': State, q: nat, f: nat)
    requires q < |s.questions| == |s'.questions| && s'.questions == s.questions[q := s'.questions[q]]
    requires s'.questions[q].spec == s.questions[q].spec && s'.questions[q].request == s.questions[q].request
    requires s'.questions[q].won == s.questions[q].won
    requires f < |s.flights| && s'.flights == s.flights[f := s.flights[f].(shared := true)]
    requires !s.flights[f].phase.Delivered?
    requires s'.reviews == s.reviews && s'.ended == s.ended && s'.step == s.step + 1
    ensures Evolves(s, s')
  {
  }

  lemma JoinKeeps(c: Config, s: State, q: nat)
    requires Inv(c, s) && Enabled(c, s, Enter(q)) && KeyOf(c, s.questions[q].spec).value in s.inFlight
    ensures Inv(c, Next(c, s, Enter(q)))
  {
    var s' := Next(c, s, Enter(q));
    var key := KeyOf(c, s.questions[q].spec).value;
    var f := s.inFlight[key];
    assert CountsOk(c, s.questions[q]) && ProgressOk(c, s, q);
    assert FlightOk(c, s, f) && GroupOk(s, key);
    EvolvesJoin(s, s', q, f);
    Assemble(c, s, s', q);
  }

  lemma StartEvolves(c: Config, s: State, q: nat)
    requires Enabled(c, s, Enter(q)) && KeyOf(c, s.questions[q].spec).value !in s.inFlight
    ensures Evolves(s, Next(c, s, Enter(q)))
  {
  }

  lemma StartKeeps(c: Config, s: State, q: nat)
    requires Inv(c, s) && Enabled(c, s, Enter(q)) && KeyOf(c, s.questions[q].spec).value !in s.inFlight
    ensures Inv(c, Next(c, s, Enter(q)))
  {
    var s' := Next(c, s, Enter(q));
    assert CountsOk(c, s.questions[q]) && ProgressOk(c, s, q);
    StartEvolves(c, s, q);
    assert FlightOk(c, s', |s.flights|);
    Assemble(c, s, s', q);
  }

  lemma FlightsHaveReviews(c: Config, s: State)
    requires Inv(c, s)
    ensures forall f :: 0 <= f < |s.flights| ==> s.flights[f].review < |s.reviews|
  {
    forall f | 0 <= f < |s.flights|
      ensures s.flights[f].review < |s.reviews|
    {
      assert FlightOk(c, s, f);
    }
  }

  ghost predicate CanReceive(s: State, q: nat) {
    && AtQuestion(s, q) && s.questions[q].progress.Waiting?
    && AtFlight(s, s.questions[q].progress.flight, Delivered)
    && s.reviews[s.flights[s.questions[q].progress.flight].review].reply.Some?
  }

  /** What a question that takes its flight's result becomes. */
  lemma ReceiverOk(c: Config, s: State, s': State, q: nat)
    requires CanReceive(s, q) && s' == DoReceive(s, q).(step := s.step + 1)
    requires CountsOk(c, s.questions[q]) && ProgressOk(c, s, q) && FlightOk(c, s, s.questions[q].progress.flight)
    requires ReviewOk(s, s.flights[s.questions[q].progress.flight].review)
    requires ReplyOk(c, s, s.flights[s.questions[q].progress.flight].review)
    requires c.environment.Settled? ==> s.ended == map[]
    requires forall f :: 0 <= f < |s.flights| ==> s.flights[f].review < |s.reviews|
    ensures CountsOk(c, s'.questions[q]) && ProgressOk(c, s', q)
  {
  }

  /** It is a step that touches one question, and may issue a review for it. */
  ghost predicate TouchesOne(s: State, s': State, q: nat) {
    && q < |s.questions| == |s'.questions| && s'.questions == s.questions[q := s'.questions[q]]
    && (s'.reviews == s.reviews || s'.reviews == s.reviews + [Review(s.questions[q].spec, q, None)])
    && |s'.reviews| - |s.reviews| == s'.questions[q].issued - s.questions[q].issued
    && s'.questions[q].lookup == s.questions[q].lookup
    && s'.hits == s.hits && s'.misses == s.misses && s'.bypasses == s.bypasses
    && s'.flights == s.flights && s'.inFlight == s.inFlight && s'.cache == s.cache && s'.ended == s.ended
  }

  lemma ReceiveTouchesOne(s: State, s': State, q: nat)
    requires CanReceive(s, q) && s' == DoReceive(s, q).(step := s.step + 1)
    ensures TouchesOne(s, s', q) && Evolves(s, s')
  {
  }

  lemma TouchingOneKeeps(c: Config, s: State, s': State, q: nat)
    requires Inv(c, s) && Evolves(s, s') && TouchesOne(s, s', q)
    requires CountsOk(c, s'.questions[q]) && ProgressOk(c, s', q)
    ensures Inv(c, s')
  {
    Assemble(c, s, s', q);
  }

  lemma ReceiveKeeps(c: Config, s: State, q: nat)
    requires Inv(c, s) && Enabled(c, s, Receive(q))
    ensures Inv(c, Next(c, s, Receive(q)))
  {
    var s' := Next(c, s, Receive(q));
    var f := s.questions[q].progress.flight;
    assert CountsOk(c, s.questions[q]) && ProgressOk(c, s, q);
    assert FlightOk(c, s, f) && ReviewOk(s, s.flights[f].review) && ReplyOk(c, s, s.flights[f].review);
    FlightsHaveReviews(c, s);
    ReceiverOk(c, s, s', q);
    ReceiveTouchesOne(s, s', q);
    TouchingOneKeeps(c, s, s', q);
  }

  lemma GiveUpKeeps(c: Config, s: State, q: nat)
    requires Inv(c, s) && Enabled(c, s, GiveUp(q))
    ensures Inv(c, Next(c, s, GiveUp(q)))
  {
    var s' := Next(c, s, GiveUp(q));
    assert CountsOk(c, s.questions[q]) && ProgressOk(c, s, q);
    assert Evolves(s, s');
    Assemble(c, s, s', q);
  }

  /** The review that answered and the question it answered. */
  lemma OwnReplySelf(c: Config, s: State, q: nat, reply: Reply)
    requires Inv(c, s) && Enabled(c, s, OwnReply(q, reply))
    ensures var s', r := Next(c, s, OwnReply(q, reply)), s.questions[q].progress.review;
      && Evolves(s, s')
      && s.reviews[r] == Review(s.questions[q].spec, q, None) && NotShared(s, r)
      && ReviewOk(s', r) && ReplyOk(c, s', r)
      && CountsOk(c, s'.questions[q]) && ProgressOk(c, s', q)
  {
    assert CountsOk(c, s.questions[q]) && ProgressOk(c, s, q);
  }

  lemma OwnReplyKeeps(c: Config, s: State, q: nat, reply: Reply)
    requires Inv(c, s) && Enabled(c, s, OwnReply(q, reply))
    ensures Inv(c, Next(c, s, OwnReply(q, reply)))
  {
    var s' := Next(c, s, OwnReply(q, reply));
    var r := s.questions[q].progress.review;
    OwnReplySelf(c, s, q, reply);
    TotalsFollow(s, s', q);
    OwnReplyOthers(c, s, s', q, r);
    OwnReplyRest(c, s, s', r);
    GroupStays(c, s, s');
  }

  lemma OwnReplyOthers(c: Config, s: State, s': State, q: nat, r: nat)
    requires Inv(c, s) && Evolves(s, s') && q < |s.questions| == |s'.questions| && r < |s.reviews|
    requires s.reviews[r].caller == q
    requires s'.questions == s.questions[q := s'.questions[q]]
    requires |s'.reviews| == |s.reviews| && s'.reviews == s.reviews[r := s'.reviews[r]]
    ensures forall p :: 0 <= p < |s.questions| && p != q ==> CountsOk(c, s'.questions[p]) && ProgressOk(c, s', p)
  {
    forall p | 0 <= p < |s.questions| && p != q
      ensures CountsOk(c, s'.questions[p]) && ProgressOk(c, s', p)
    {
      assert ProgressOk(c, s, p);
      QuestionStays(c, s, s', p);
    }
  }

  lemma OwnReplyRest(c: Config, s: State, s': State, r: nat)
    requires Inv(c, s) && Evolves(s, s') && r < |s.reviews| == |s'.reviews|
    requires s'.reviews == s.reviews[r := s'.reviews[r]]
    requires NotShared(s, r)
    requires s'.flights == s.flights && s'.inFlight == s.inFlight && s'.cache == s.cache && s'.ended == s.ended
    ensures forall x :: 0 <= x < |s.reviews| && x != r ==> ReviewOk(s', x) && ReplyOk(c, s', x)
    ensures forall f :: 0 <= f < |s.flights| ==> FlightOk(c, s', f)
    ensures forall k :: k in s'.cache ==> EntryOk(c, s', k)
  {
    forall x | 0 <= x < |s'.reviews| && x != r
      ensures ReviewOk(s', x) && ReplyOk(c, s', x)
    {
      assert ReviewOk(s, x) && ReplyOk(c, s, x);
    }
    forall f | 0 <= f < |s.flights|
      ensures FlightOk(c, s', f)
    {
      assert FlightOk(c, s, f);
    }
    forall k | k in s'.cache
      ensures EntryOk(c, s', k)
    {
      EntryStays(c, s, s', k);
    }
  }

  /** A step that moves one flight on and touches no question. */
  lemma FlightMoves(c: Config, s: State, s': State, f: nat)
    requires Inv(c, s) && Evolves(s, s') && f < |s.flights|
    requires s'.questions == s.questions && |s'.flights| == |s.flights| && |s'.reviews| == |s.reviews|
    requires s'.ended == s.ended && s'.hits == s.hits && s'.misses == s.misses && s'.bypasses == s.bypasses
    requires forall g :: 0 <= g < |s.flights| && g != f ==> s'.flights[g] == s.flights[g]
    requires forall r :: 0 <= r < |s.reviews| && r != s.flights[f].review ==> s'.reviews[r] == s.reviews[r]
    requires FlightOk(c, s', f)
    requires s.flights[f].review < |s.reviews| && ReviewOk(s', s.flights[f].review)
      && ReplyOk(c, s', s.flights[f].review)
    requires forall k :: k in s'.inFlight <==> k in s.inFlight && (s.inFlight[k] == f ==> !s'.flights[f].phase.Delivered?)
    requires forall k :: k in s'.inFlight ==> s'.inFlight[k] == s.inFlight[k]
    requires forall k :: k in s'.cache ==> EntryOk(c, s', k)
    ensures Inv(c, s')
  {
    assert FlightEvolves(s, s', f);
    forall q | 0 <= q < |s'.questions|
      ensures CountsOk(c, s'.questions[q]) && ProgressOk(c, s', q)
    {
      assert ProgressOk(c, s, q);
      QuestionStays(c, s, s', q);
    }
    forall r | 0 <= r < |s'.reviews|
      ensures ReviewOk(s', r) && ReplyOk(c, s', r)
    {
      assert ReviewOk(s, r) && ReplyOk(c, s, r);
    }
    forall g | 0 <= g < |s'.flights|
      ensures FlightOk(c, s', g)
    {
      assert FlightOk(c, s, g);
      assert g != f ==> s.flights[g].review != s.flights[f].review;
    }
    forall k | k in s'.inFlight
      ensures GroupOk(s', k)
    {
      assert GroupOk(s, k);
    }
  }

  lemma FlightReplyKeeps(c: Config, s: State, f: nat, reply: Reply)
    requires Inv(c, s) && Enabled(c, s, FlightReply(f, reply))
    ensures Inv(c, Next(c, s, FlightReply(f, reply)))
  {
    var s' := Next(c, s, FlightReply(f, reply));
    assert FlightOk(c, s, f) && ReviewOk(s, s.flights[f].review);
    assert Evolves(s, s');
    forall k | k in s'.cache
      ensures EntryOk(c, s', k)
    {
      EntryStays(c, s, s', k);
    }
    FlightMoves(c, s, s', f);
  }

  /** The flight whose decision is stored. */
  lemma FillSelf(c: Config, s: State, s': State, f: nat)
    requires AtFlight(s, f, Replied) && s.reviews[s.flights[f].review].reply.Some? && FlightOk(c, s, f)
    requires s' == DoFill(c, s, f).(step := s.step + 1)
    ensures Evolves(s, s') && FlightOk(c, s', f)
  {
    EvolvesFlight(s, s', f);
  }

  /** The entry it is stored as. */
  lemma FilledEntry(c: Config, s: State, s': State, f: nat)
    requires AtFlight(s, f, Replied) && s.reviews[s.flights[f].review].reply.Some? && FlightOk(c, s, f)
    requires s' == DoFill(c, s, f).(step := s.step + 1)
    ensures var key := s.flights[f].key;
      && (forall k :: k in s'.cache ==> k == key || (k in s.cache && s'.cache[k] == s.cache[k]))
      && (s'.cache == s.cache || (key in s'.cache && EntryOk(c, s', key)))
  {
  }

  lemma FillEntryOk(c: Config, s: State, s': State, key: Key)
    requires (forall k :: k in s.cache ==> EntryOk(c, s, k)) && Evolves(s, s')
    requires forall k :: k in s'.cache ==> k == key || (k in s.cache && s'.cache[k] == s.cache[k])
    requires s'.cache == s.cache || (key in s'.cache && EntryOk(c, s', key))
    ensures forall k :: k in s'.cache ==> EntryOk(c, s', k)
  {
    forall k | k in s'.cache
      ensures EntryOk(c, s', k)
    {
      if k in s.cache && s'.cache[k] == s.cache[k] {
        EntryStays(c, s, s', k);
      }
    }
  }

  lemma FillKeeps(c: Config, s: State, s': State, f: nat)
    requires Inv(c, s) && AtFlight(s, f, Replied) && s.reviews[s.flights[f].review].reply.Some?
    requires s' == DoFill(c, s, f).(step := s.step + 1)
    ensures Inv(c, s')
  {
    assert FlightOk(c, s, f) && ReviewOk(s, s.flights[f].review) && ReplyOk(c, s, s.flights[f].review);
    FillSelf(c, s, s', f);
    FilledEntry(c, s, s', f);
    FillEntryOk(c, s, s', s.flights[f].key);
    FlightMoves(c, s, s', f);
  }

  lemma FlightFillKeeps(c: Config, s: State, f: nat)
    requires Inv(c, s) && Enabled(c, s, FlightFill(f))
    ensures Inv(c, Next(c, s, FlightFill(f)))
  {
    FillKeeps(c, s, Next(c, s, FlightFill(f)), f);
  }

  lemma FlightDeliverKeeps(c: Config, s: State, f: nat)
    requires Inv(c, s) && Enabled(c, s, FlightDeliver(f))
    ensures Inv(c, Next(c, s, FlightDeliver(f)))
  {
    var s' := Next(c, s, FlightDeliver(f));
    assert FlightOk(c, s, f) && ReviewOk(s, s.flights[f].review) && ReplyOk(c, s, s.flights[f].review);
    EvolvesFlight(s, s', f);
    forall k | k in s'.cache
      ensures EntryOk(c, s', k)
    {
      EntryStays(c, s, s', k);
    }
    assert forall k :: k in s.inFlight ==> GroupOk(s, k);
    FlightMoves(c, s, s', f);
  }

  /** Steps of the environment: a context ends, an entry is evicted, the clock is set. */
  lemma EnvironmentKeeps(c: Config, s: State, s': State)
    requires Inv(c, s) && Evolves(s, s')
    requires s'.questions == s.questions && s'.flights == s.flights && s'.reviews == s.reviews
    requires s'.inFlight == s.inFlight
    requires forall k :: k in s'.cache ==> k in s.cache && s'.cache[k] == s.cache[k]
    requires c.environment.Settled? ==> s'.ended == s.ended
    requires s'.hits == s.hits && s'.misses == s.misses && s'.bypasses == s.bypasses
    ensures Inv(c, s')
  {
    RestStays(c, s, s');
  }

  lemma EndEvolves(c: Config, s: State, request: nat, timedOut: bool)
    requires Enabled(c, s, End(request, timedOut))
    ensures Evolves(s, Next(c, s, End(request, timedOut)))
  {
  }

  lemma EndKeeps(c: Config, s: State, request: nat, timedOut: bool)
    requires Inv(c, s) && Enabled(c, s, End(request, timedOut))
    ensures Inv(c, Next(c, s, End(request, timedOut)))
  {
    EndEvolves(c, s, request, timedOut);
    EnvironmentKeeps(c, s, Next(c, s, End(request, timedOut)));
  }

  lemma EvictKeeps(c: Config, s: State, key: Key)
    requires Inv(c, s)
    ensures Inv(c, Next(c, s, Evict(key)))
  {
    EnvironmentKeeps(c, s, Next(c, s, Evict(key)));
  }

  lemma SetClockKeeps(c: Config, s: State, time: int)
    requires Inv(c, s)
    ensures Inv(c, Next(c, s, SetClock(time)))
  {
    EnvironmentKeeps(c, s, Next(c, s, SetClock(time)));
  }

  lemma StepKeeps(c: Config, s: State, step: Step)
    requires Inv(c, s) && Enabled(c, s, step)
    ensures Inv(c, Next(c, s, step))
  {
    match step
    case Ask(spec, request) => AskKeeps(c, s, spec, request);
    case LookUp(q) => LookUpKeeps(c, s, q);
    case Enter(q) =>
      if KeyOf(c, s.questions[q].spec).value in s.inFlight {
        JoinKeeps(c, s, q);
      } else {
        StartKeeps(c, s, q);
      }
    case FlightReply(f, reply) => FlightReplyKeeps(c, s, f, reply);
    case FlightFill(f) => FlightFillKeeps(c, s, f);
    case FlightDeliver(f) => FlightDeliverKeeps(c, s, f);
    case Receive(q) => ReceiveKeeps(c, s, q);
    case GiveUp(q) => GiveUpKeeps(c, s, q);
    case OwnReply(q, reply) => OwnReplyKeeps(c, s, q, reply);
    case End(request, timedOut) => EndKeeps(c, s, request, timedOut);
    case Evict(key) => EvictKeeps(c, s, key);
    case SetClock(time) => SetClockKeeps(c, s, time);
  }

  /** The invariant holds at the end of every run. */
  lemma {:induction false} RunKeeps(c: Config, steps: seq<Step>)
    requires IsRun(c, steps)
    ensures Inv(c, After(c, steps))
  {
    if steps != [] {
      RunKeeps(c, steps[..|steps| - 1]);
      StepKeeps(c, After(c, steps[..|steps| - 1]), steps[|steps| - 1]);
    }
  }
}
