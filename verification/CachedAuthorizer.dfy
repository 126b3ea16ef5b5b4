/** The walk over the headers, with its questions answered by the review machine. */
module CachedAuthorizer {
  import opened Headers
  import opened ReviewSpec
  import Errors
  import opened Authorizer
  import Laws = AuthorizerLaws
  import opened Machine = ReviewMachine
  import Theorems = ReviewTheorems

  function SpecOf(ask: Authorizer.Ask, requester: User): Spec {
    ImpersonationReviewSpec(ask.resource, ask.name, requester)
  }

  function AnswerOf(reply: Reply): Answer {
    match reply
    case Verdict(allowed) => if allowed then Allowed else NotAllowed
    case Fault(error) => Failed(error)
  }

  /** The i-th question of the request is question ids[i] of the run, and its answer is what the walk got. */
  ghost predicate AnsweredBy(s: State, ids: seq<nat>, requester: User, asked: seq<Authorizer.Ask>, oracle: Oracle) {
    && |asked| <= |ids|
    && forall i :: 0 <= i < |asked| ==>
         && ids[i] < |s.questions|
         && s.questions[ids[i]].spec == SpecOf(asked[i], requester)
         && s.questions[ids[i]].progress.Answered?
         && oracle(i, asked[i]) == AnswerOf(s.questions[ids[i]].progress.reply)
  }

  lemma {:induction false} AgreeingOraclesPlayAlike(
    items: seq<Item>, n: nat, requester: User, a: Oracle, b: Oracle)
    requires n <= |items|
    requires forall i :: 0 <= i < |Asked(items, n, a)| ==>
      a(n + i, Asked(items, n, a)[i]) == b(n + i, Asked(items, n, a)[i])
    ensures FirstRefusal(items, n, requester, a) == FirstRefusal(items, n, requester, b)
    ensures Asked(items, n, a) == Asked(items, n, b)
    decreases |items| - n
  {
    if n < |items| && items[n].Question? {
      var asked := Asked(items, n, a);
      assert asked[0] == items[n].ask;
      assert a(n, items[n].ask) == b(n, items[n].ask);
      if Passes(items, n, a) {
        var rest := Asked(items, n + 1, a);
        assert asked == [items[n].ask] + rest;
        forall i | 0 <= i < |rest|
          ensures a(n + 1 + i, rest[i]) == b(n + 1 + i, rest[i])
        {
          assert asked[i + 1] == rest[i];
          assert a(n + (i + 1), asked[i + 1]) == b(n + (i + 1), asked[i + 1]);
        }
        AgreeingOraclesPlayAlike(items, n + 1, requester, a, b);
      }
    }
  }

  /** The uncached check: every question goes to the verdict itself. */
  function Uncached(verdict: Spec -> bool, requester: User): Oracle {
    Laws.Fixed(ask => if verdict(SpecOf(ask, requester)) then Allowed else NotAllowed)
  }

  /** With a settled verdict, whatever mix of hits, shared flights, bypasses and evictions answered its
      questions, a request is decided exactly as it is without a cache: same outcome, same target, same
      forwarded headers, same questions. */
  lemma CachingIsInvisible(
    c: Config, steps: seq<Step>, ids: seq<nat>,
    h: Header, order: seq<string>, order2: seq<string>, requester: User, limit: int, oracle: Oracle)
    requires IsRun(c, steps) && JsonIsInjective(c) && c.environment.Settled?
    requires NonEmptyLists(h) && IsOrder(h, order)
    requires AnsweredBy(After(c, steps), ids, requester, Check(h, order, order2, requester, limit, oracle).1, oracle)
    ensures Check(h, order, order2, requester, limit, oracle)
      == Check(h, order, order2, requester, limit, Uncached(c.environment.verdict, requester))
  {
    if CountValues(h, order) <= limit {
      var asked := Asked(Script(h, order), 0, oracle);
      var plain := Uncached(c.environment.verdict, requester);
      forall i | 0 <= i < |asked|
        ensures oracle(i, asked[i]) == plain(i, asked[i])
      {
        var s := After(c, steps);
        var Answered(reply, source) := s.questions[ids[i]].progress;
        Theorems.SettledAnswersAreTheVerdict(c, steps, ids[i], reply, source);
      }
      AgreeingOraclesPlayAlike(Script(h, order), 0, requester, oracle, plain);
    }
  }

  /** Two proxies with different TTLs, or one without a cache, grant the same requests to the same targets
      with the same headers, in whatever order each happens to iterate the headers. */
  lemma TTLsDoNotMatter(
    c: Config, steps: seq<Step>, ids: seq<nat>, oracle: Oracle,
    d: Config, moves: seq<Step>, jds: seq<nat>, oracle': Oracle,
    h: Header, a: seq<string>, a2: seq<string>, b: seq<string>, b2: seq<string>, requester: User, limit: int)
    requires IsRun(c, steps) && JsonIsInjective(c) && c.environment.Settled?
    requires IsRun(d, moves) && JsonIsInjective(d) && d.environment == c.environment
    requires FromServer(h) && IsOrder(h, a) && IsOrder(h, a2) && IsOrder(h, b) && IsOrder(h, b2)
    requires AnsweredBy(After(c, steps), ids, requester, Check(h, a, a2, requester, limit, oracle).1, oracle)
    requires AnsweredBy(After(d, moves), jds, requester, Check(h, b, b2, requester, limit, oracle').1, oracle')
    ensures var x, y := Check(h, a, a2, requester, limit, oracle).0, Check(h, b, b2, requester, limit, oracle').0;
      if x.Refused? then y.Refused? else x == y
  {
    CachingIsInvisible(c, steps, ids, h, a, a2, requester, limit, oracle);
    CachingIsInvisible(d, moves, jds, h, b, b2, requester, limit, oracle');
    Laws.OrderDoesNotMatter(h, a, a2, b, b2, requester, limit,
      ask => if c.environment.verdict(SpecOf(ask, requester)) then Allowed else NotAllowed);
  }

  /** A grant rests on live reviews, under any verdicts: for the name, the uid, each group and each extra
      value of the target there is a question of the run that asks whether this requester, with its own uid, groups
      and extra, may impersonate it; it was answered allow, and the answer is accounted for. */
  lemma GrantsRestOnLiveReviews(
    c: Config, steps: seq<Step>, ids: seq<nat>,
    h: Header, order: seq<string>, order2: seq<string>, requester: User, limit: int, oracle: Oracle,
    ask: Authorizer.Ask)
    returns (q: nat)
    requires IsRun(c, steps) && JsonIsInjective(c)
    requires FromServer(h) && IsOrder(h, order) && IsOrder(h, order2)
    requires Check(h, order, order2, requester, limit, oracle).0.Granted?
    requires AnsweredBy(After(c, steps), ids, requester, Check(h, order, order2, requester, limit, oracle).1, oracle)
    requires Laws.Justifies(h, Check(h, order, order2, requester, limit, oracle).0.target, ask)
    ensures var s := After(c, steps);
      && q in ids && q < |s.questions| && AsksToImpersonate(s.questions[q].spec, requester, ask.resource, ask.name)
      && s.questions[q].progress.Answered? && s.questions[q].progress.reply == Verdict(true)
      && Theorems.Accounted(c, s, q, true, s.questions[q].progress.source)
  {
    Laws.GrantedMeans(h, order, order2, requester, limit, oracle);
    var asked := Check(h, order, order2, requester, limit, oracle).1;
    var i :| 0 <= i < |asked| && asked[i] == ask;
    q := ids[i];
    assert oracle(i, asked[i]).Allowed?;
    var s := After(c, steps);
    ReviewAsksToImpersonate(s.questions[q].spec, requester, ask.resource, ask.name);
    Theorems.DecisionsAreAccountedFor(c, steps, q, true, s.questions[q].progress.source);
  }

  // ---- Failures keep their sentinel ----

  predicate ReplyIsMarked(reply: Reply) {
    reply.Fault? ==> Errors.CreateReview in reply.error
  }

  ghost predicate ReviewsAreMarked(s: State) {
    forall r :: 0 <= r < |s.reviews| && s.reviews[r].reply.Some? ==> ReplyIsMarked(s.reviews[r].reply.value)
  }

  ghost predicate AnswersAreMarked(s: State) {
    forall q :: 0 <= q < |s.questions| && s.questions[q].progress.Answered? ==>
      ReplyIsMarked(s.questions[q].progress.reply)
  }

  lemma StepMarksReviews(c: Config, s: State, step: Step)
    requires ReviewsAreMarked(s) && Enabled(c, s, step)
    ensures ReviewsAreMarked(Next(c, s, step))
  {
  }

  lemma StepMarksAnswers(c: Config, s: State, step: Step)
    requires ReviewsAreMarked(s) && AnswersAreMarked(s) && Enabled(c, s, step)
    ensures AnswersAreMarked(Next(c, s, step))
  {
  }

  lemma {:induction false} RunMarks(c: Config, steps: seq<Step>)
    requires IsRun(c, steps)
    ensures ReviewsAreMarked(After(c, steps)) && AnswersAreMarked(After(c, steps))
  {
    if steps != [] {
      RunMarks(c, steps[..|steps| - 1]);
      StepMarksReviews(c, After(c, steps[..|steps| - 1]), steps[|steps| - 1]);
      StepMarksAnswers(c, After(c, steps[..|steps| - 1]), steps[|steps| - 1]);
    }
  }

  /** Whatever the run, a question that failed carries the sentinel the error handler looks for, so a failed
      review is never mistaken for a failed upstream call. */
  lemma FailedQuestionsAreMarked(
    c: Config, steps: seq<Step>, ids: seq<nat>, requester: User, asked: seq<Authorizer.Ask>, oracle: Oracle, i: nat)
    requires IsRun(c, steps) && AnsweredBy(After(c, steps), ids, requester, asked, oracle)
    requires i < |asked| && oracle(i, asked[i]).Failed?
    ensures Errors.CreateReview in oracle(i, asked[i]).error
  {
    RunMarks(c, steps);
    assert ReplyIsMarked(After(c, steps).questions[ids[i]].progress.reply);
  }
}
