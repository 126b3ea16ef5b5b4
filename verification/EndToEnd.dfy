/** The chain, the authorizer and the review machine together. */
module EndToEnd {
  import opened Strings
  import opened Headers
  import opened ReviewSpec
  import Errors
  import Auth = Authorizer
  import Laws = AuthorizerLaws
  import opened CachedAuthorizer
  import Machine = ReviewMachine
  import ReviewTheorems
  import ClientIP
  import opened Pipeline
  import opened PipelineTheorems
  import opened PipelineResults
  import opened OutboundExtras
  import Lifecycle

  /** Whoever an upstream call impersonates, for the name, the uid, every group and every extra value of that
      target there is a question in the run of reviews and cache hits that asks whether exactly the guarded requester
      may impersonate it, answered allow, and the answer is accounted for: by its own review, by a flight it joined,
      or by an entry no older than its TTL. */
  lemma ImpersonationRestsOnReviews(
    c: Config, w: World, r: Request, i: nat,
    m: Machine.Config, steps: seq<Machine.Step>, ids: seq<nat>, ask: Auth.Ask) returns (q: nat)
    requires Enters(c, w, r) && FromServer(r.headers)
    requires i < |Left(c, w, r).events| && Left(c, w, r).events[i].UpstreamCall?
    requires TargetOf(Authenticate(c, w, r)).Some? && w.authentication.Accepted?
    requires Machine.IsRun(m, steps) && Machine.JsonIsInjective(m)
    requires AnsweredBy(
      Machine.After(m, steps), ids, w.authentication.user,
      Auth.Check(r.headers, w.order, w.order2, w.authentication.user, c.maxHeaderValues, w.sar).1, w.sar)
    requires Laws.Justifies(r.headers, TargetOf(Authenticate(c, w, r)).value, ask)
    ensures var s := Machine.After(m, steps);
      && Guarded(c, w.authentication.user)
      && q in ids && q < |s.questions|
      && AsksToImpersonate(s.questions[q].spec, w.authentication.user, ask.resource, ask.name)
      && s.questions[q].progress.Answered? && s.questions[q].progress.reply == Machine.Verdict(true)
      && ReviewTheorems.Accounted(m, s, q, true, s.questions[q].progress.source)
  {
    AdmittedFacts(c, w, r);
    q := GrantsRestOnLiveReviews(
      m, steps, ids, r.headers, w.order, w.order2, w.authentication.user, c.maxHeaderValues, w.sar, ask);
  }

  /** What the reverse proxy gives the transport, as far as the forwarded chain goes. */
  ghost predicate ProxiesTheChain(w: World, r: Request) {
    forall step :: step in w.proxy && step.CallTransport? ==>
      Get(step.headers, ClientIP.FORWARDED_FOR)
        == Get(ClientIP.Proxied(r.headers, r.remote), ClientIP.FORWARDED_FOR)
  }

  lemma ChainHeadersAreNotImpersonation()
    ensures !Auth.Impersonates(ClientIP.FORWARDED_FOR) && !Auth.Impersonates(ClientIP.CONNECTION)
  {
    assert Lower(ClientIP.FORWARDED_FOR)[0] == 'x' && Lower(ClientIP.CONNECTION)[0] == 'c' && Auth.PREFIX[0] == 'i';
  }

  /** The filters pass the chain and the Connection header on as they were sanitised. */
  lemma AdmittedChain(c: Config, w: World, r: Request)
    requires Enters(c, w, r) && FromServer(r.headers) && Authenticate(c, w, r).Forward?
    ensures var out := Authenticate(c, w, r).request.headers;
      && ClientIP.ListedNames(out) == ClientIP.ListedNames(r.headers)
      && Values(out, ClientIP.FORWARDED_FOR) == Values(r.headers, ClientIP.FORWARDED_FOR)
  {
    AdmittedFacts(c, w, r);
    ChainHeadersAreNotImpersonation();
    ClientIP.FixedKeys();
    var r' := Authenticate(c, w, r).request;
    if r'.impersonation.Some? && r'.impersonation.value.impersonated.Some? {
      TargetIsAllowed(c, w, r, w.authentication.user, r'.impersonation.value.impersonated.value, r'.headers);
    }
  }

  /** Whose extras an impersonating call starts from. */
  function IdentityOf(w: World, a: Admission): User
    requires w.authentication.Accepted?
  {
    if TargetOf(a).Some? then TargetOf(a).value else w.authentication.user
  }

  /** Whether the identity or the operator supplies values under some spelling of the client-address key. */
  ghost predicate OthersSupplyClientIP(c: Config, w: World, a: Admission)
    requires w.authentication.Accepted?
  {
    !NoValues(IdentityOf(w, a).extra, CLIENT_IP_KEY) || !NoValues(c.extraHeaders, CLIENT_IP_KEY)
  }

  /** Under the client-address key the API server receives the address resolved from the headers as they arrived,
      although it is computed after they were sanitised, and nothing else if and only if neither the identity nor
      the operator supplies any spelling of the key. */
  lemma ExtraIsTheArrivalsClient(
    c: Config, w: World, remote: ClientIP.Remote, headers: Header, bearer: string, r: Request, i: nat,
    order: seq<string>)
    requires r == Entering(c, remote, headers, bearer, r.decision, r.termination)
    requires Enters(c, w, r) && FromServer(headers) && ClientIP.WellFormed(c.networks) && c.clientIPExtra
    requires i < |Left(c, w, r).events| && Left(c, w, r).events[i].UpstreamCall?
    requires Left(c, w, r).events[i].carrier.ClientTransport?
    requires Auth.IsOrder(Left(c, w, r).events[i].carrier.config.extra, order)
    ensures w.authentication.Accepted?
    ensures var received := multiset(Received(Left(c, w, r).events[i].carrier.config.extra, order, CLIENT_IP_KEY));
      var client := ClientIP.Client(headers, remote, c.networks);
      && client in received
      && (received == multiset{client} <==> !OthersSupplyClientIP(c, w, Authenticate(c, w, r)))
      && (received != multiset{client} ==> |received| > 1)
  {
    ClientIP.SanitizingKeepsShape(headers, remote, c.networks);
    ClientIP.SanitizingKeepsClient(headers, remote, c.networks);
    IdentityIsJustified(c, w, r, i);
    AdmittedEncodes(c, w, r);
    ClientIPReceived(
      c, w, IdentityOf(w, Authenticate(c, w, r)), w.authentication.user, TargetOf(Authenticate(c, w, r)).Some?,
      SourceIP(r), order);
  }

  /** The API server receives the address of the record right before an impersonating call, and no other, exactly
      when neither the identity nor the operator supplies any spelling of the key, and the request does not list its
      chain in Connection unless its client is the peer, and if it does not list it no later line surfaces. */
  lemma RecordAndExtraAgreeExactlyWhen(
    c: Config, w: World, remote: ClientIP.Remote, headers: Header, bearer: string, r: Request, i: nat,
    order: seq<string>)
    requires r == Entering(c, remote, headers, bearer, r.decision, r.termination)
    requires Enters(c, w, r) && FromServer(headers) && ClientIP.WellFormed(c.networks) && c.clientIPExtra
    requires i < |Left(c, w, r).events| && Left(c, w, r).events[i].UpstreamCall?
    requires Left(c, w, r).events[i].carrier.ClientTransport?
    requires Auth.IsOrder(Left(c, w, r).events[i].carrier.config.extra, order)
    requires ProxiesTheChain(w, Authenticate(c, w, r).request)
    ensures w.authentication.Accepted? && i >= 2 && Left(c, w, r).events[i - 2].AccessRecord?
    ensures multiset(Received(Left(c, w, r).events[i].carrier.config.extra, order, CLIENT_IP_KEY))
        == multiset{Left(c, w, r).events[i - 2].decision.srcIP}
      <==> !OthersSupplyClientIP(c, w, Authenticate(c, w, r))
           && if ClientIP.ChainIsListed(headers)
              then ClientIP.Client(headers, remote, c.networks) == ClientIP.PeerHost(remote)
              else !ClientIP.LaterLineSurfaces(headers, remote, c.networks)
  {
    ExtraIsTheArrivalsClient(c, w, remote, headers, bearer, r, i, order);
    RecordedIsPassedOn(c, w, remote, headers, bearer, r, i);
    var client, src := ClientIP.Client(headers, remote, c.networks), Left(c, w, r).events[i - 2].decision.srcIP;
    assert multiset{client} == multiset{src} <==> client == src by {
      assert client in multiset{client};
    }
  }

  lemma RecordedIsPassedOn(
    c: Config, w: World, remote: ClientIP.Remote, headers: Header, bearer: string, r: Request, i: nat)
    requires r == Entering(c, remote, headers, bearer, r.decision, r.termination)
    requires Enters(c, w, r) && FromServer(headers) && ClientIP.WellFormed(c.networks)
    requires i < |Left(c, w, r).events| && Left(c, w, r).events[i].UpstreamCall?
    requires Left(c, w, r).events[i].carrier.ClientTransport?
    requires ProxiesTheChain(w, Authenticate(c, w, r).request)
    ensures i >= 2 && Left(c, w, r).events[i - 2].AccessRecord?
    ensures Left(c, w, r).events[i - 2].decision.srcIP != ClientIP.Client(headers, remote, c.networks)
      <==> if ClientIP.ChainIsListed(headers)
           then ClientIP.Client(headers, remote, c.networks) != ClientIP.PeerHost(remote)
           else ClientIP.LaterLineSurfaces(headers, remote, c.networks)
  {
    ClientIP.SanitizingKeepsShape(headers, remote, c.networks);
    RecordedAddress(c, w, r, i);
    AdmittedChain(c, w, r);
    ClientIP.ChainAfterRemoval(headers, remote, c.networks);
    ClientIP.PassedOnClientAgrees(headers, Authenticate(c, w, r).request.headers, remote, c.networks);
  }

  lemma RecordedAddress(c: Config, w: World, r: Request, i: nat)
    requires Enters(c, w, r) && FromServer(r.headers)
    requires i < |Left(c, w, r).events| && Left(c, w, r).events[i].UpstreamCall?
    requires Left(c, w, r).events[i].carrier.ClientTransport?
    requires ProxiesTheChain(w, Authenticate(c, w, r).request)
    ensures Authenticate(c, w, r).Forward? && i >= 2 && Left(c, w, r).events[i - 2].AccessRecord?
    ensures Left(c, w, r).events[i - 2].decision.srcIP
      == ClientIP.Client(ClientIP.Proxied(Authenticate(c, w, r).request.headers, r.remote), r.remote, c.networks)
  {
    UpstreamFollowsAllow(c, w, r, i);
    AdmittedFacts(c, w, r);
    var r' := Authenticate(c, w, r).request;
    var call := Left(c, w, r).events[i];
    PlayedSends(r', FRESH, w.proxy);
    assert FromAStep(r', w.proxy, call);
    var step :| step in w.proxy && step.CallTransport? && call.headers == Outgoing(r'.(headers := step.headers)).headers;
    assert call.headers == step.headers;
  }

  /** A request whose questions a run answered is decided exactly once under the same condition: what the pipeline
      needs of review failures is what the machine gives them. */
  lemma DecidedOnceOverTheMachine(
    c: Config, w: World, r: Request, m: Machine.Config, steps: seq<Machine.Step>, ids: seq<nat>)
    requires Enters(c, w, r) && Machine.IsRun(m, steps)
    requires w.authentication.Accepted? ==>
      AnsweredBy(
        Machine.After(m, steps), ids, w.authentication.user, QuestionsAbout(c, w, r, w.authentication.user), w.sar)
    ensures Decisions(Left(c, w, r).events) == 1
      <==> Authenticate(c, w, r).Refuse? || (w.auditPasses && SettlesOnce(w.proxy))
  {
    if w.authentication.Accepted? {
      var user := w.authentication.user;
      var asked := QuestionsAbout(c, w, r, user);
      forall n | 0 <= n < |asked| && w.sar(n, asked[n]).Failed?
        ensures Errors.CreateReview in w.sar(n, asked[n]).error
      {
        FailedQuestionsAreMarked(m, steps, ids, user, asked, w.sar, n);
      }
    }
    DecidedOnceExactlyWhen(c, w, r);
  }

  /** The end of a whole request as the lifecycle filter sees it. */
  function EndingOf(t: Trace, panic: Lifecycle.Panic, canceled: bool): Lifecycle.Ending {
    Lifecycle.Ending(panic, canceled, Lifecycle.Classified(t.termination, t.reason))
  }

  /** The last upstream failure of a request that got as far as the reverse proxy. */
  function UpstreamFailureOf(w: World, a: Admission): string {
    if a.Forward? && w.auditPasses then LastUpstreamFailure(w.proxy) else ""
  }

  /** The terminal record of a whole request: a fault, a takeover, a client gone and an aborted response come first;
      then it shows the last upstream failure reported, and else a normal end. It gives the reason exactly when what
      it shows is that failure's classification. */
  lemma TerminalRecordOfARequest(
    c: Config, w: World, r: Request, response: Lifecycle.Response, panic: Lifecycle.Panic, canceled: bool)
    requires Enters(c, w, r) && ReviewErrorsAreMarked(c, w, r)
    ensures var failure := UpstreamFailureOf(w, Authenticate(c, w, r));
      var record := Lifecycle.Completion(response, EndingOf(Left(c, w, r), panic, canceled));
      && record.termination ==
           (if panic.Fault? then "panic"
            else if response.hijacked then "hijacked"
            else if canceled then "client_cancel"
            else if panic.Abort? then "upstream_reset"
            else if failure != "" then failure
            else "normal")
      && record.reason == if failure != "" && record.termination == failure then Some("upstream_error") else None
  {
    ClassificationReachesTheTop(c, w, r);
    ReasonReachesTheTop(c, w, r);
  }
}
