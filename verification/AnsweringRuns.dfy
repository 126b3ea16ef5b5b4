/** Every list of questions is answered by some run, with any answers the environment may give. */
module AnsweringRuns {
  import opened Strings
  import opened ReviewSpec
  import opened Errors
  import opened Machine = ReviewMachine
  import opened ReviewTheorems
  import opened CachedAuthorizer
  import Auth = Authorizer

  /** The replies a server of this kind may give to a review whose context is not done. */
  ghost predicate Possible(c: Config, spec: Spec, reply: Reply) {
    match c.environment
    case Anything => true
    case Honest => !(reply.Fault? && IsContextError(reply.error))
    case Settled(verdict) => reply == Verdict(verdict(spec))
  }

  /** The state with one question more than before, at some point of its progress. */
  ghost predicate OneMore(s: State, before: seq<Question>, spec: Spec, request: nat, progress: Progress) {
    && |s.questions| == |before| + 1 && s.questions[..|before|] == before
    && s.questions[|before|].spec == spec && s.questions[|before|].request == request
    && s.questions[|before|].progress == progress
  }

  ghost predicate LastReview(s: State, q: nat, spec: Spec, reply: Option<Reply>) {
    |s.reviews| > 0 && s.reviews[|s.reviews| - 1] == Review(spec, q, reply)
  }

  /** The newest flight, in some phase, started by question q and joined by nobody. */
  ghost predicate LastFlight(s: State, q: nat, key: Key, phase: Phase) {
    && |s.flights| > 0 && |s.reviews| > 0
    && s.flights[|s.flights| - 1].key == key && s.flights[|s.flights| - 1].winner == q
    && s.flights[|s.flights| - 1].review == |s.reviews| - 1 && !s.flights[|s.flights| - 1].shared
    && s.flights[|s.flights| - 1].phase == phase
    && s.inFlight == if phase.Delivered? then map[] else map[key := |s.flights| - 1]
  }

  lemma Asks(c: Config, s: State, spec: Spec, request: nat)
    ensures var s' := Next(c, s, Ask(spec, request));
      OneMore(s', s.questions, spec, request, Asking) && s'.inFlight == s.inFlight
  {
  }

  lemma Bypasses(c: Config, s: State, before: seq<Question>, spec: Spec, request: nat)
    requires OneMore(s, before, spec, request, Asking) && KeyOf(c, spec).None?
    ensures Enabled(c, s, LookUp(|before|))
    ensures var s' := Next(c, s, LookUp(|before|));
      && OneMore(s', before, spec, request, Reviewing(|s'.reviews| - 1))
      && LastReview(s', |before|, spec, None) && s'.inFlight == s.inFlight
  {
  }

  lemma OwnAnswers(c: Config, s: State, before: seq<Question>, spec: Spec, request: nat, reply: Reply)
    requires |s.reviews| > 0 && OneMore(s, before, spec, request, Reviewing(|s.reviews| - 1))
    requires LastReview(s, |before|, spec, None) && Possible(c, spec, reply)
    ensures Enabled(c, s, OwnReply(|before|, reply))
    ensures var s' := Next(c, s, OwnReply(|before|, reply));
      && OneMore(s', before, spec, request, Answered(Wrap(reply), FromOwnReview(|s.reviews| - 1)))
      && s'.inFlight == s.inFlight
  {
  }

  lemma MissesAfterEviction(c: Config, s: State, before: seq<Question>, spec: Spec, request: nat, key: Key)
    requires OneMore(s, before, spec, request, Asking) && KeyOf(c, spec) == Some(key)
    ensures Enabled(c, s, Evict(key)) && Enabled(c, Next(c, s, Evict(key)), LookUp(|before|))
    ensures var s' := Next(c, Next(c, s, Evict(key)), LookUp(|before|));
      OneMore(s', before, spec, request, Missed) && s'.inFlight == s.inFlight
  {
  }

  lemma Starts(c: Config, s: State, before: seq<Question>, spec: Spec, request: nat, key: Key)
    requires OneMore(s, before, spec, request, Missed) && KeyOf(c, spec) == Some(key) && s.inFlight == map[]
    ensures Enabled(c, s, Enter(|before|))
    ensures var s' := Next(c, s, Enter(|before|));
      && OneMore(s', before, spec, request, Waiting(|s'.flights| - 1, s.step))
      && LastFlight(s', |before|, key, Running) && LastReview(s', |before|, spec, None)
  {
  }

  lemma Replies(
    c: Config, s: State, before: seq<Question>, spec: Spec, request: nat, key: Key, joined: nat, reply: Reply)
    requires |s.flights| > 0 && OneMore(s, before, spec, request, Waiting(|s.flights| - 1, joined))
    requires LastFlight(s, |before|, key, Running) && LastReview(s, |before|, spec, None) && Possible(c, spec, reply)
    ensures Enabled(c, s, FlightReply(|s.flights| - 1, reply))
    ensures var s' := Next(c, s, FlightReply(|s.flights| - 1, reply));
      && |s'.flights| == |s.flights| && OneMore(s', before, spec, request, Waiting(|s.flights| - 1, joined))
      && LastFlight(s', |before|, key, Replied) && LastReview(s', |before|, spec, Some(Wrap(reply)))
  {
  }

  lemma Fills(
    c: Config, s: State, before: seq<Question>, spec: Spec, request: nat, key: Key, joined: nat, reply: Reply)
    requires |s.flights| > 0 && OneMore(s, before, spec, request, Waiting(|s.flights| - 1, joined))
    requires LastFlight(s, |before|, key, Replied) && LastReview(s, |before|, spec, Some(reply))
    ensures Enabled(c, s, FlightFill(|s.flights| - 1))
    ensures var s' := Next(c, s, FlightFill(|s.flights| - 1));
      && |s'.flights| == |s.flights| && OneMore(s', before, spec, request, Waiting(|s.flights| - 1, joined))
      && LastFlight(s', |before|, key, Filled) && LastReview(s', |before|, spec, Some(reply))
  {
  }

  lemma Delivers(
    c: Config, s: State, before: seq<Question>, spec: Spec, request: nat, key: Key, joined: nat, reply: Reply)
    requires |s.flights| > 0 && OneMore(s, before, spec, request, Waiting(|s.flights| - 1, joined))
    requires LastFlight(s, |before|, key, Filled) && LastReview(s, |before|, spec, Some(reply))
    ensures Enabled(c, s, FlightDeliver(|s.flights| - 1))
    ensures var s' := Next(c, s, FlightDeliver(|s.flights| - 1));
      && |s'.flights| == |s.flights| && OneMore(s', before, spec, request, Waiting(|s.flights| - 1, joined))
      && LastFlight(s', |before|, key, Delivered) && LastReview(s', |before|, spec, Some(reply))
  {
    assert map[key := |s.flights| - 1] - {key} == map[];
  }

  lemma Receives(
    c: Config, s: State, before: seq<Question>, spec: Spec, request: nat, key: Key, joined: nat, reply: Reply)
    requires |s.flights| > 0 && OneMore(s, before, spec, request, Waiting(|s.flights| - 1, joined))
    requires LastFlight(s, |before|, key, Delivered) && LastReview(s, |before|, spec, Some(reply))
    ensures Enabled(c, s, Receive(|before|))
    ensures var s' := Next(c, s, Receive(|before|));
      && OneMore(s', before, spec, request, Answered(reply, FromFlight(|s.flights| - 1, joined)))
      && s'.inFlight == map[]
  {
  }

  lemma AnswerByBypass(
    c: Config, steps: seq<Step>, before: seq<Question>, spec: Spec, request: nat, reply: Reply)
    returns (more: seq<Step>, source: Source)
    requires IsRun(c, steps) && After(c, steps).inFlight == map[] && Possible(c, spec, reply)
    requires OneMore(After(c, steps), before, spec, request, Asking) && KeyOf(c, spec).None?
    ensures IsRun(c, more) && After(c, more).inFlight == map[]
    ensures OneMore(After(c, more), before, spec, request, Answered(Wrap(reply), source))
  {
    Bypasses(c, After(c, steps), before, spec, request);
    more := Take(c, steps, LookUp(|before|));
    source := FromOwnReview(|After(c, more).reviews| - 1);
    OwnAnswers(c, After(c, more), before, spec, request, reply);
    more := Take(c, more, OwnReply(|before|, reply));
  }

  lemma MissOnce(c: Config, steps: seq<Step>, before: seq<Question>, spec: Spec, request: nat, key: Key)
    returns (more: seq<Step>)
    requires IsRun(c, steps) && OneMore(After(c, steps), before, spec, request, Asking) && KeyOf(c, spec) == Some(key)
    ensures IsRun(c, more) && After(c, more).inFlight == After(c, steps).inFlight
    ensures OneMore(After(c, more), before, spec, request, Missed)
  {
    MissesAfterEviction(c, After(c, steps), before, spec, request, key);
    more := Take(c, steps, Evict(key));
    more := Take(c, more, LookUp(|before|));
  }

  /** A flight of one's own, up to the reply of its review. */
  lemma Launch(
    c: Config, steps: seq<Step>, before: seq<Question>, spec: Spec, request: nat, key: Key, reply: Reply)
    returns (more: seq<Step>, joined: nat)
    requires IsRun(c, steps) && After(c, steps).inFlight == map[] && Possible(c, spec, reply)
    requires OneMore(After(c, steps), before, spec, request, Missed) && KeyOf(c, spec) == Some(key)
    ensures IsRun(c, more)
    ensures var s := After(c, more);
      && |s.flights| > 0 && OneMore(s, before, spec, request, Waiting(|s.flights| - 1, joined))
      && LastFlight(s, |before|, key, Replied) && LastReview(s, |before|, spec, Some(Wrap(reply)))
  {
    joined := After(c, steps).step;
    Starts(c, After(c, steps), before, spec, request, key);
    more := Take(c, steps, Enter(|before|));
    Replies(c, After(c, more), before, spec, request, key, joined, reply);
    more := Take(c, more, FlightReply(|After(c, more).flights| - 1, reply));
  }

  /** From there to its delivery. */
  lemma Land(
    c: Config, steps: seq<Step>, before: seq<Question>, spec: Spec, request: nat, key: Key, joined: nat, reply: Reply)
    returns (more: seq<Step>)
    requires IsRun(c, steps) && |After(c, steps).flights| > 0
    requires OneMore(After(c, steps), before, spec, request, Waiting(|After(c, steps).flights| - 1, joined))
    requires LastFlight(After(c, steps), |before|, key, Replied)
    requires LastReview(After(c, steps), |before|, spec, Some(reply))
    ensures IsRun(c, more)
    ensures var s := After(c, more);
      && |s.flights| > 0 && OneMore(s, before, spec, request, Waiting(|s.flights| - 1, joined))
      && LastFlight(s, |before|, key, Delivered) && LastReview(s, |before|, spec, Some(reply))
  {
    Fills(c, After(c, steps), before, spec, request, key, joined, reply);
    more := Take(c, steps, FlightFill(|After(c, steps).flights| - 1));
    Delivers(c, After(c, more), before, spec, request, key, joined, reply);
    more := Take(c, more, FlightDeliver(|After(c, more).flights| - 1));
  }

  lemma Fly(
    c: Config, steps: seq<Step>, before: seq<Question>, spec: Spec, request: nat, key: Key, reply: Reply)
    returns (more: seq<Step>, source: Source)
    requires IsRun(c, steps) && After(c, steps).inFlight == map[] && Possible(c, spec, reply)
    requires OneMore(After(c, steps), before, spec, request, Missed) && KeyOf(c, spec) == Some(key)
    ensures IsRun(c, more) && After(c, more).inFlight == map[]
    ensures OneMore(After(c, more), before, spec, request, Answered(Wrap(reply), source))
  {
    var joined;
    more, joined := Launch(c, steps, before, spec, request, key, reply);
    more := Land(c, more, before, spec, request, key, joined, Wrap(reply));
    source := FromFlight(|After(c, more).flights| - 1, joined);
    Receives(c, After(c, more), before, spec, request, key, joined, Wrap(reply));
    more := Take(c, more, Receive(|before|));
  }

  /** From any run with nothing in flight, one more question is asked and answered: by a bypass, or by a flight of
      its own once any cached answer is evicted. */
  lemma AnswerOne(c: Config, steps: seq<Step>, spec: Spec, request: nat, reply: Reply)
    returns (more: seq<Step>, source: Source)
    requires IsRun(c, steps) && After(c, steps).inFlight == map[] && Possible(c, spec, reply)
    ensures IsRun(c, more) && After(c, more).inFlight == map[]
    ensures OneMore(After(c, more), After(c, steps).questions, spec, request, Answered(Wrap(reply), source))
  {
    var before := After(c, steps).questions;
    Asks(c, After(c, steps), spec, request);
    more := Take(c, steps, Ask(spec, request));
    match KeyOf(c, spec) {
      case None =>
        more, source := AnswerByBypass(c, more, before, spec, request, reply);
      case Some(key) =>
        more := MissOnce(c, more, before, spec, request, key);
        more, source := Fly(c, more, before, spec, request, key, reply);
    }
  }

  /** The reply behind an answer; the sentinel of a failure is put on by the machine. */
  function ReplyFor(answer: Auth.Answer): Reply {
    match answer
    case Allowed => Verdict(true)
    case NotAllowed => Verdict(false)
    case Failed(error) => Fault(error)
  }

  /** Whatever a request asks, and however the environment may answer it, some run answers it so. What is proved of
      requests answered by a run is therefore never vacuous. */
  lemma {:induction false} SomeRunAnswers(
    c: Config, requester: User, asked: seq<Auth.Ask>, oracle: Auth.Oracle) returns (steps: seq<Step>, ids: seq<nat>)
    requires forall i :: 0 <= i < |asked| ==>
      && Possible(c, SpecOf(asked[i], requester), ReplyFor(oracle(i, asked[i])))
      && (oracle(i, asked[i]).Failed? ==> CreateReview in oracle(i, asked[i]).error)
    ensures IsRun(c, steps) && After(c, steps).inFlight == map[]
    ensures AnsweredBy(After(c, steps), ids, requester, asked, oracle)
    decreases |asked|
  {
    if asked == [] {
      steps, ids := [], [];
    } else {
      var n := |asked| - 1;
      var spec, reply := SpecOf(asked[n], requester), ReplyFor(oracle(n, asked[n]));
      var earlier;
      earlier, ids := SomeRunAnswers(c, requester, asked[..n], oracle);
      ids := ids[..n];
      var source;
      steps, source := AnswerOne(c, earlier, spec, 0, reply);
      var q := |After(c, earlier).questions|;
      WrappedAnswer(oracle(n, asked[n]));
      AnswersStay(After(c, earlier), After(c, steps), ids, requester, asked, oracle, q);
      ids := ids + [q];
    }
  }

  lemma WrappedAnswer(answer: Auth.Answer)
    requires answer.Failed? ==> CreateReview in answer.error
    ensures AnswerOf(Wrap(ReplyFor(answer))) == answer
  {
    if answer.Failed? {
      assert answer.error + {CreateReview} == answer.error;
    }
  }

  lemma AnswersStay(
    s: State, s': State, ids: seq<nat>, requester: User, asked: seq<Auth.Ask>, oracle: Auth.Oracle, q: nat)
    requires |asked| > 0 && |ids| == |asked| - 1
    requires AnsweredBy(s, ids, requester, asked[..|asked| - 1], oracle)
    requires q == |s.questions| < |s'.questions| && s'.questions[..q] == s.questions
    requires var n := |asked| - 1;
      && s'.questions[q].spec == SpecOf(asked[n], requester) && s'.questions[q].progress.Answered?
      && oracle(n, asked[n]) == AnswerOf(s'.questions[q].progress.reply)
    ensures AnsweredBy(s', ids + [q], requester, asked, oracle)
  {
    var n := |asked| - 1;
    forall i | 0 <= i < |asked|
      ensures var id := (ids + [q])[i];
        && id < |s'.questions| && s'.questions[id].spec == SpecOf(asked[i], requester)
        && s'.questions[id].progress.Answered?
        && oracle(i, asked[i]) == AnswerOf(s'.questions[id].progress.reply)
    {
      if i < n {
        assert asked[..n][i] == asked[i];
        assert s'.questions[ids[i]] == s'.questions[..q][ids[i]];
      }
    }
  }
}
