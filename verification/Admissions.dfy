/** Which requests the filters admit and what becomes of the others, in terms of the request, the token's identity
    and the answers to the questions about it. */
module Admissions {
  import opened Strings
  import opened Headers
  import opened ReviewSpec
  import opened Errors
  import opened ErrorHandler
  import Auth = Authorizer
  import opened Pipeline
  import opened PipelineTheorems
  import opened PipelineResults
  import Laws = AuthorizerLaws
  import Walk = WalkOutcomes
  import opened ClientIP

  // ---- Who is admitted ----

  /** An identity a token may carry: no reserved name, and of the reserved groups only the one every authenticated
      user has and those the operator allowed. */
  predicate Acceptable(c: Config, user: User) {
    && !("system:" <= user.name)
    && forall g :: g in user.groups && "system:" <= g ==> g == "system:authenticated" || g in c.allowedReservedGroups
  }

  lemma AcceptableIsNotReserved(c: Config, user: User)
    ensures Acceptable(c, user) <==> !ReservedIdentityIn(user, c.allowedReservedGroups)
  {
    forall g | g in user.groups
      ensures Reserved(g, c.allowedReservedGroups)
        <==> "system:" <= g && g != "system:authenticated" && g !in c.allowedReservedGroups
    {
    }
  }

  /** Whether the requester may go upstream under an identity: its own when no header impersonates, and otherwise the
      target's, every value of which was allowed. */
  ghost predicate MayProceed(c: Config, w: World, h: Header, user: User)
    requires Ordered(w, h)
  {
    user.name != ""
    && (Walk.AnyImpersonation(h) ==>
          Walk.ValuesAllowed(h, w.order, c.maxHeaderValues, w.sar) && (user.extra != map[] ==> w.encoded.Some?))
  }

  lemma AuthorizedExactlyWhen(c: Config, w: World, h: Header, user: User)
    requires Ordered(w, h)
    ensures Authorized(c, w, h, user).NotImpersonating? <==> !Walk.AnyImpersonation(h)
    ensures Authorized(c, w, h, user).Granted?
      <==> Walk.AnyImpersonation(h) && Walk.ValuesAllowed(h, w.order, c.maxHeaderValues, w.sar)
  {
    assert HasImpersonation(h) <==> Walk.AnyImpersonation(h);
    if Walk.AnyImpersonation(h) {
      Walk.GrantedExactlyWhen(h, w.order, w.order2, user, c.maxHeaderValues, w.sar);
      GrantedOrRefused(c, w, h, user);
    }
  }

  lemma ProceedsExactlyWhen(c: Config, w: World, named: Request, user: User)
    requires Ordered(w, named.headers) && !named.noImpersonation && named.user == Some(user) && !c.disableImpersonation
    ensures Impersonate(c, w, named).Forward? <==> MayProceed(c, w, named.headers, user)
  {
    AuthorizedExactlyWhen(c, w, named.headers, user);
  }

  /** A request goes on if and only if its token was accepted and is not reserved, and impersonation is off or the
      requester may proceed; or its token was rejected, token review is on, a bearer was found and a review accepted
      it. */
  lemma AdmittedExactlyWhen(c: Config, w: World, r: Request)
    requires Enters(c, w, r)
    ensures Authenticate(c, w, r).Forward?
      <==> match w.authentication
           case Accepted(user) => Acceptable(c, user) && (c.disableImpersonation || MayProceed(c, w, r.headers, user))
           case Rejected => c.tokenReview && w.bearerFound && w.tokenAccepted
           case Anonymous => false
  {
    if w.authentication.Accepted? {
      var user := w.authentication.user;
      AcceptableIsNotReserved(c, user);
      if !c.disableImpersonation {
        ProceedsExactlyWhen(c, w, r.(authMethod := "oidc", user := Some(user)), user);
      }
    }
  }

  /** A plain request of an accepted token goes on as its own user, with its headers untouched. */
  lemma PlainRequestGoesAsItself(c: Config, w: World, r: Request)
    requires Enters(c, w, r) && w.authentication.Accepted? && Acceptable(c, w.authentication.user)
    requires !c.disableImpersonation && w.authentication.user.name != "" && !Walk.AnyImpersonation(r.headers)
    ensures var a, user := Authenticate(c, w, r), w.authentication.user;
      && a.Forward? && TargetOf(a) == None && a.request.headers == r.headers && !a.request.noImpersonation
      && a.request.user == Some(user) && a.request.impersonation.Some?
      && a.request.impersonation.value.inbound == user
      && var out := a.request.impersonation.value.config;
         out.name == user.name && out.uid == user.uid && CarriesGroups(out.groups, user.groups)
  {
    var user := w.authentication.user;
    AcceptableIsNotReserved(c, user);
    AuthorizedExactlyWhen(c, w, r.headers, user);
    AdmittedExactlyWhen(c, w, r);
    ConfigureConfigures(c, w, r.(authMethod := "oidc", user := Some(user)), user, None, SourceIP(r));
  }

  // ---- What becomes of the others ----

  datatype Rejection = Rejection(reason: string, status: Option<int>, target: Option<(string, string)>)

  /** How a refused target is recorded. */
  function RecordedTarget(ask: Auth.Ask): (string, string) {
    if ask.resource == "users" then ("user", TrimQuotes("'" + ask.name + "'"))
    else if ask.resource == "groups" then ("group", TrimQuotes("'" + ask.name + "'"))
    else if ask.resource == "uids" then ("uid", TrimQuotes("'" + ask.name + "'"))
    else if EXTRA_RESOURCE <= ask.resource then
      ("extra", TrimQuotes("'" + ExtraNameIn(ask.resource) + "'='" + ask.name + "'"))
    else ("", "")
  }

  /** What the questions about an impersonating request come to when it is refused: the last answer decides; with all
      allowed, or nothing asked, it is a header of an unknown kind or a requester that does not encode. */
  function AnsweredWith(asked: seq<Auth.Ask>, oracle: Auth.Oracle): Rejection {
    var internal := Rejection("internal_error", Some(500), None);
    if asked == [] then internal
    else
      var last := |asked| - 1;
      match oracle(last, asked[last])
      case Allowed => internal
      case NotAllowed => Rejection("impersonation_denied", Some(403), Some(RecordedTarget(asked[last])))
      case Failed(error) => if ContextCanceled in error then Rejection("client_canceled", None, None) else internal
  }

  /** What a refused walk amounts to, given the questions it asked. */
  function WalkRejection(c: Config, w: World, h: Header, asked: seq<Auth.Ask>): Rejection
    requires forall k :: k in w.order ==> k in h
  {
    if Auth.CountValues(h, w.order) > c.maxHeaderValues then
      Rejection("too_many_impersonation_values", Some(431), None)
    else if Get(h, "impersonate-user") == "" then Rejection("internal_error", Some(500), None)
    else AnsweredWith(asked, w.sar)
  }

  /** The reason, the answer and the target of a refused request. */
  ghost function RefusalOf(c: Config, w: World, r: Request): Rejection
    requires Ordered(w, r.headers)
  {
    match w.authentication
    case Rejected => Rejection("unauthorized", Some(401), None)
    case Anonymous => Rejection("unauthorized", Some(401), None)
    case Accepted(user) =>
      if !Acceptable(c, user) then Rejection("reserved_identity", Some(403), None)
      else if user.name == "" then Rejection("no_username_claim", Some(403), None)
      else WalkRejection(c, w, r.headers, QuestionsAbout(c, w, r, user))
  }

  /** A failed review carries the review sentinel and no other of the proxy's own, but perhaps a cancellation. */
  ghost predicate ReviewErrorsAreForeign(c: Config, w: World, r: Request)
    requires Ordered(w, r.headers)
  {
    w.authentication.Accepted? ==>
      var asked := QuestionsAbout(c, w, r, w.authentication.user);
      forall n :: 0 <= n < |asked| && w.sar(n, asked[n]).Failed? ==> IsForeign(w.sar(n, asked[n]).error)
  }

  predicate IsForeign(error: Error) {
    CreateReview in error && error * OWN <= {CreateReview, ContextCanceled}
  }

  /** The rejection a failure amounts to. */
  function RejectionOf(f: Failure): Rejection
    requires Dispose(f.marks).Refusal?
  {
    Rejection(Dispose(f.marks).reason, Dispose(f.marks).status,
      if f.denied.Some? then Some((TargetKind(f.denied.value.0), TrimQuotes(f.denied.value.1))) else None)
  }

  lemma ForeignFailure(error: Error)
    requires IsForeign(error)
    ensures Dispose(error).Refusal?
    ensures RejectionOf(Failure(error, None))
      == if ContextCanceled in error then Rejection("client_canceled", None, None)
         else Rejection("internal_error", Some(500), None)
  {
    forall m | m in OWN && m in error
      ensures m in {CreateReview, ContextCanceled}
    {
      assert m in error * OWN;
    }
  }

  lemma DeniedTarget(ask: Auth.Ask, kind: string, shown: string)
    requires Walk.Described(ask, kind, shown)
    ensures (TargetKind(kind), TrimQuotes(shown)) == RecordedTarget(ask)
  {
    if EXTRA_RESOURCE <= ask.resource {
      assert ask.resource[4] == 'e' && |ask.resource| > 5;
    }
  }

  lemma OwnFailures()
    ensures forall m :: m in OWN ==> Dispose({m}).Refusal?
    ensures RejectionOf(Plain(Unauthorized)) == Rejection("unauthorized", Some(401), None)
    ensures RejectionOf(Plain(ReservedIdentity)) == Rejection("reserved_identity", Some(403), None)
    ensures RejectionOf(Plain(NoName)) == Rejection("no_username_claim", Some(403), None)
    ensures RejectionOf(Failure({}, None)) == Rejection("internal_error", Some(500), None)
  {
  }

  lemma DeniedIsRejected(ask: Auth.Ask, requester: string, kind: string, shown: string)
    requires Walk.Described(ask, kind, shown)
    ensures Dispose(FailureOf(Auth.Denied(requester, kind, shown)).marks).Refusal?
    ensures RejectionOf(FailureOf(Auth.Denied(requester, kind, shown)))
      == Rejection("impersonation_denied", Some(403), Some(RecordedTarget(ask)))
  {
    DeniedTarget(ask, kind, shown);
  }

  /** What a refusal of the walk amounts to. */
  lemma WalkIsRejected(c: Config, w: World, h: Header, user: User, refusal: Auth.Refusal, asked: seq<Auth.Ask>, u: nat)
    requires Auth.NonEmptyLists(h) && Auth.IsOrder(h, w.order) && u <= |w.order|
    requires Walk.RefusedFor(h, w.order, u, user, c.maxHeaderValues, w.sar, asked, refusal)
    requires Walk.Explained(h, w.order, u, user, c.maxHeaderValues, w.sar, Auth.Refused(refusal), asked)
    requires forall n :: 0 <= n < |asked| && w.sar(n, asked[n]).Failed? ==> IsForeign(w.sar(n, asked[n]).error)
    ensures Dispose(FailureOf(refusal).marks).Refusal?
    ensures RejectionOf(FailureOf(refusal)) == WalkRejection(c, w, h, asked)
  {
    match refusal {
      case Denied(name, kind, target) => DeniedIsRejected(asked[|asked| - 1], name, kind, target);
      case ReviewFailed(error) => ForeignFailure(error);
      case TooManyValues(_, _) =>
      case NoUser =>
      case UnknownHeader(_) =>
    }
  }

  lemma AuthorizedIsChecked(c: Config, w: World, r: Request, user: User)
    requires Ordered(w, r.headers) && Authorized(c, w, r.headers, user).Refused?
    ensures Auth.Check(r.headers, w.order, w.order2, user, c.maxHeaderValues, w.sar)
      == (Authorized(c, w, r.headers, user), QuestionsAbout(c, w, r, user))
  {
  }

  lemma RefusedWalk(c: Config, w: World, r: Request, user: User)
    requires Ordered(w, r.headers) && w.authentication == Accepted(user) && ReviewErrorsAreForeign(c, w, r)
    requires Authorized(c, w, r.headers, user).Refused?
    ensures var f := FailureOf(Authorized(c, w, r.headers, user).refusal);
      Dispose(f.marks).Refusal? && RejectionOf(f) == WalkRejection(c, w, r.headers, QuestionsAbout(c, w, r, user))
  {
    var refusal := Authorized(c, w, r.headers, user).refusal;
    var u := Walk.FindFirstUnknown(w.order);
    AuthorizedIsChecked(c, w, r, user);
    Walk.RefusedExactlyWhen(r.headers, w.order, w.order2, user, c.maxHeaderValues, w.sar, refusal, u);
    Walk.OutcomeExplained(r.headers, w.order, w.order2, user, c.maxHeaderValues, w.sar, u);
    WalkIsRejected(c, w, r.headers, user, refusal, QuestionsAbout(c, w, r, user), u);
  }

  /** A grant that is refused all the same, for the requester's extra does not encode. */
  lemma GrantIsRejected(c: Config, w: World, r: Request, user: User)
    requires Ordered(w, r.headers) && Authorized(c, w, r.headers, user).Granted?
    ensures WalkRejection(c, w, r.headers, QuestionsAbout(c, w, r, user)) == Rejection("internal_error", Some(500), None)
  {
    AuthorizedExactlyWhen(c, w, r.headers, user);
    Walk.GrantedExactlyWhen(r.headers, w.order, w.order2, user, c.maxHeaderValues, w.sar);
  }

  /** The failure of a refused request. */
  lemma RefusedAs(c: Config, w: World, r: Request)
    requires Enters(c, w, r) && Authenticate(c, w, r).Refuse? && ReviewErrorsAreForeign(c, w, r)
    ensures var f := Authenticate(c, w, r).failure;
      Dispose(f.marks).Refusal? && RejectionOf(f) == RefusalOf(c, w, r)
  {
    OwnFailures();
    if w.authentication.Accepted? {
      var user := w.authentication.user;
      AcceptableIsNotReserved(c, user);
      if Acceptable(c, user) && user.name != "" {
        if Authorized(c, w, r.headers, user).Refused? {
          RefusedWalk(c, w, r, user);
        } else if Authorized(c, w, r.headers, user).Granted? {
          GrantIsRejected(c, w, r, user);
        }
      }
    }
  }

  /** The record of a refusal, its count, and the answer if there is anybody to answer. */
  lemma HandledLeaves(r: Request, f: Failure)
    requires Dispose(f.marks).Refusal?
    ensures var Rejection(reason, status, target) := RejectionOf(f);
      Handled(FRESH, r, Some(f)).events
        == [AccessRecord(Decision(false, reason, r.authMethod, SourceIP(r), r.user, None, target)),
            DecisionCount(r.authMethod, false, reason)]
           + if status.Some? then [Answer(status.value)] else []
  {
  }

  /** A refused request as the error handler gets it. */
  lemma RefusedRequest(c: Config, w: World, r: Request)
    requires Enters(c, w, r) && FromServer(r.headers) && r.authMethod == "none" && Authenticate(c, w, r).Refuse?
    ensures var r', accepted := Authenticate(c, w, r).request, w.authentication.Accepted?;
      && r'.authMethod == (if accepted then "oidc" else "none")
      && r'.user == (if accepted then Some(w.authentication.user) else None)
      && SourceIP(r') == SourceIP(r)
  {
    var r' := Authenticate(c, w, r).request;
    if w.authentication.Accepted? && r'.headers != r.headers {
      var user := w.authentication.user;
      var out := Authorized(c, w, r.headers, user);
      TargetIsAllowed(c, w, r, user, out.target, out.headers);
      ChainIsKept(r.headers);
    }
  }

  lemma ChainIsKept(h: Header)
    ensures Get(Laws.Kept(h), FORWARDED_FOR) == Get(h, FORWARDED_FOR)
  {
    FixedKeys();
    assert Lower(FORWARDED_FOR)[0] == 'x' && Auth.PREFIX[0] == 'i';
  }

  /** A refused request leaves one access record, under the identity of its token and with the reason and the target of
      its refusal; the count of that decision; and the answer, when there is somebody to answer. Nothing else. */
  lemma RefusalIsAnswered(c: Config, w: World, r: Request)
    requires Enters(c, w, r) && FromServer(r.headers) && r.authMethod == "none" && ReviewErrorsAreForeign(c, w, r)
    requires Authenticate(c, w, r).Refuse?
    ensures var Rejection(reason, status, target) := RefusalOf(c, w, r);
      var (authMethod, inbound) :=
        if w.authentication.Accepted? then ("oidc", Some(w.authentication.user)) else ("none", None);
      Left(c, w, r).events
        == [AccessRecord(Decision(false, reason, authMethod, SourceIP(r), inbound, None, target)),
            DecisionCount(authMethod, false, reason)]
           + if status.Some? then [Answer(status.value)] else []
  {
    RefusedAs(c, w, r);
    RefusedRequest(c, w, r);
    HandledLeaves(Authenticate(c, w, r).request, Authenticate(c, w, r).failure);
  }
}
