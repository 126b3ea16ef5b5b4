/** The promises of the chain: one decision a request, an upstream call only behind an allow, and only on
    behalf of an identity that was justified. */
module PipelineResults {
  import opened Strings
  import opened Headers
  import opened ReviewSpec
  import opened Errors
  import opened ErrorHandler
  import Auth = Authorizer
  import Laws = AuthorizerLaws
  import opened Pipeline
  import opened PipelineTheorems

  // ---- One decision ----

  /** A request is decided exactly once if and only if the filters refuse it, or they admit it, the audit filter
      passes it on, and the reverse proxy makes no transport call after its first decisive step. */
  lemma DecidedOnceExactlyWhen(c: Config, w: World, r: Request)
    requires Enters(c, w, r) && ReviewErrorsAreMarked(c, w, r)
    ensures Decisions(Left(c, w, r).events) == 1
      <==> Authenticate(c, w, r).Refuse? || (w.auditPasses && SettlesOnce(w.proxy))
  {
    match Authenticate(c, w, r) {
      case Refuse(r', failure) =>
        RefusedIsRecorded(c, w, r);
        HandledCounts(FRESH, r', Some(failure));
      case Forward(r') =>
        AdmittedFacts(c, w, r);
        PlayedCounts(FRESH, r', w.proxy);
        OneIsSettled(w.proxy);
    }
  }

  /** What httputil.ReverseProxy keeps to: it does something; it calls the transport at most once and never
      after reporting an error; what it reports before calling the transport is an error, and none of the
      transport's. */
  ghost predicate IsReverseProxy(steps: seq<ProxyStep>) {
    && steps != []
    && (forall j :: 0 < j < |steps| ==> !steps[j].CallTransport?)
    && (steps[0].ReportError? ==> Refuses(steps[0]))
  }

  /** So behind such a proxy every request the audit filter lets through is decided once, whatever fails
      afterwards. */
  lemma ReverseProxySettlesOnce(steps: seq<ProxyStep>)
    requires IsReverseProxy(steps)
    ensures SettlesOnce(steps)
  {
    assert FirstDecisive(steps, 0) && NoCallAfter(steps, 0);
  }

  /** The one gap: an admitted request that the audit filter answers itself leaves no decision at all. */
  lemma UnauditedIsUndecided(c: Config, w: World, r: Request)
    requires Enters(c, w, r) && Authenticate(c, w, r).Forward? && !w.auditPasses
    ensures Left(c, w, r).events == []
  {
  }

  // ---- Record and counter ----

  datatype Verdict = Verdict(authMethod: string, allowed: bool, reason: string)

  function Recordings(events: seq<Event>): seq<Verdict> {
    if events == [] then []
    else
      var last := events[|events| - 1];
      Recordings(events[..|events| - 1])
      + if last.AccessRecord?
        then [Verdict(last.decision.authMethod, last.decision.allowed, last.decision.reason)] else []
  }

  function Countings(events: seq<Event>): seq<Verdict> {
    if events == [] then []
    else
      var last := events[|events| - 1];
      Countings(events[..|events| - 1])
      + if last.DecisionCount? then [Verdict(last.authMethod, last.allowed, last.reason)] else []
  }

  lemma OneEvent(events: seq<Event>, e: Event)
    ensures Recordings(events + [e]) == Recordings(events)
      + if e.AccessRecord? then [Verdict(e.decision.authMethod, e.decision.allowed, e.decision.reason)] else []
    ensures Countings(events + [e]) == Countings(events)
      + if e.DecisionCount? then [Verdict(e.authMethod, e.allowed, e.reason)] else []
  {
    assert (events + [e])[..|events|] == events;
  }

  predicate Agree(t: Trace) {
    Recordings(t.events) == Countings(t.events)
  }

  lemma RecordedAgrees(t: Trace, d: Decision)
    requires Agree(t)
    ensures Agree(Recorded(t, d))
  {
    var record := AccessRecord(Shown(d));
    var count := DecisionCount(d.authMethod, d.allowed, if d.allowed then "" else d.reason);
    OneEvent(t.events, record);
    OneEvent(t.events + [record], count);
    assert t.events + [record, count] == t.events + [record] + [count];
  }

  lemma HandledAgrees(t: Trace, r: Request, error: Option<Failure>)
    requires Agree(t)
    ensures Agree(Handled(t, r, error))
  {
    OneEvent(t.events, Answer(500));
    OneEvent(t.events, Answer(502));
    if error.Some? {
      match Dispose(error.value.marks) {
        case Refusal(reason, status) =>
          RecordedAgrees(t, Denial(r, reason, error.value));
          if status.Some? {
            OneEvent(Denied(t, r, reason, error.value).events, Answer(status.value));
          }
        case UpstreamFailure(_) =>
      }
    }
  }

  lemma {:induction false} PlayedAgrees(t: Trace, r: Request, steps: seq<ProxyStep>)
    requires Agree(t) && Carried(r)
    ensures Agree(Played(t, r, steps))
  {
    if steps != [] {
      var n := |steps| - 1;
      PlayedAgrees(t, r, steps[..n]);
      var middle := Played(t, r, steps[..n]);
      match steps[n] {
        case CallTransport(headers) =>
          var sent := Outgoing(r.(headers := headers));
          var carrier := if r.noImpersonation then NoAuthTransport else ClientTransport(r.impersonation.value.config);
          RecordedAgrees(middle, Allowance(sent));
          OneEvent(Recorded(middle, Allowance(sent)).events, UpstreamCall(carrier, sent.headers));
        case ReportError(headers, error) => HandledAgrees(middle, r.(headers := headers), error);
      }
    }
  }

  /** The counter says of every decision what its record says, in the same order. */
  lemma RecordAndCounterAgree(c: Config, w: World, r: Request)
    requires Enters(c, w, r)
    ensures Recordings(Left(c, w, r).events) == Countings(Left(c, w, r).events)
  {
    match Authenticate(c, w, r) {
      case Refuse(r', failure) => HandledAgrees(FRESH, r', Some(failure));
      case Forward(r') =>
        AdmittedFacts(c, w, r);
        PlayedAgrees(FRESH, r', w.proxy);
    }
  }

  // ---- The upstream call ----

  function CarrierOf(r: Request): Carrier
    requires Carried(r)
  {
    if r.noImpersonation then NoAuthTransport else ClientTransport(r.impersonation.value.config)
  }

  /** The event at i is no upstream call, or one of this request's, right behind its allow and its count. */
  ghost predicate Behind(r: Request, events: seq<Event>, i: nat)
    requires Carried(r) && i < |events|
  {
    events[i].UpstreamCall? ==>
      && i >= 2 && events[i].carrier == CarrierOf(r)
      && events[i - 2] == AccessRecord(Allowance(r.(headers := events[i].headers)))
      && events[i - 1] == DecisionCount(r.authMethod, true, "")
  }

  ghost predicate AllBehind(r: Request, events: seq<Event>)
    requires Carried(r)
  {
    forall i :: 0 <= i < |events| ==> Behind(r, events, i)
  }

  lemma AppendBehind(r: Request, events: seq<Event>, e: Event)
    requires Carried(r) && AllBehind(r, events) && Behind(r, events + [e], |events|)
    ensures AllBehind(r, events + [e])
  {
    forall i | 0 <= i < |events + [e]|
      ensures Behind(r, events + [e], i)
    {
      assert i < |events| ==> Behind(r, events, i);
    }
  }

  lemma RecordedBehind(r: Request, t: Trace, d: Decision)
    requires Carried(r) && AllBehind(r, t.events)
    ensures AllBehind(r, Recorded(t, d).events)
  {
    var record := AccessRecord(Shown(d));
    var count := DecisionCount(d.authMethod, d.allowed, if d.allowed then "" else d.reason);
    AppendBehind(r, t.events, record);
    AppendBehind(r, t.events + [record], count);
    assert t.events + [record, count] == t.events + [record] + [count];
  }

  lemma HandledBehind(r: Request, headers: Header, t: Trace, error: Option<Failure>)
    requires Carried(r) && AllBehind(r, t.events)
    ensures AllBehind(r, Handled(t, r.(headers := headers), error).events)
  {
    AppendBehind(r, t.events, Answer(500));
    AppendBehind(r, t.events, Answer(502));
    if error.Some? {
      match Dispose(error.value.marks) {
        case Refusal(reason, status) =>
          var denied := r.(headers := headers);
          RecordedBehind(r, t, Denial(denied, reason, error.value));
          if status.Some? {
            AppendBehind(r, Denied(t, denied, reason, error.value).events, Answer(status.value));
          }
        case UpstreamFailure(_) =>
      }
    }
  }

  lemma TransportedBehind(r: Request, headers: Header, t: Trace)
    requires Carried(r) && AllBehind(r, t.events)
    ensures AllBehind(r, Transported(t, r.(headers := headers)).events)
  {
    var sent := Outgoing(r.(headers := headers));
    assert sent == r.(headers := sent.headers);
    RecordedBehind(r, t, Allowance(sent));
    AppendBehind(r, Recorded(t, Allowance(sent)).events, UpstreamCall(CarrierOf(r), sent.headers));
  }

  lemma {:induction false} PlayedBehind(r: Request, t: Trace, steps: seq<ProxyStep>)
    requires Carried(r) && AllBehind(r, t.events)
    ensures AllBehind(r, Played(t, r, steps).events)
  {
    if steps != [] {
      var n := |steps| - 1;
      PlayedBehind(r, t, steps[..n]);
      match steps[n] {
        case CallTransport(headers) => TransportedBehind(r, headers, Played(t, r, steps[..n]));
        case ReportError(headers, error) => HandledBehind(r, headers, Played(t, r, steps[..n]), error);
      }
    }
  }

  /** A request only reaches the API server after it was admitted, recorded as allowed and counted so, and it
      travels on the one transport its admission chose. */
  lemma UpstreamFollowsAllow(c: Config, w: World, r: Request, i: nat)
    requires Enters(c, w, r) && i < |Left(c, w, r).events| && Left(c, w, r).events[i].UpstreamCall?
    ensures Authenticate(c, w, r).Forward?
    ensures var r' := Authenticate(c, w, r).request;
      Carried(r') && Behind(r', Left(c, w, r).events, i)
  {
    match Authenticate(c, w, r) {
      case Refuse(r', failure) => HandledNeverCalls(FRESH, r', Some(failure), i);
      case Forward(r') =>
        AdmittedFacts(c, w, r);
        PlayedBehind(r', FRESH, w.proxy);
    }
  }

  lemma HandledNeverCalls(t: Trace, r: Request, error: Option<Failure>, i: nat)
    requires i < |Handled(t, r, error).events| && i >= |t.events|
    ensures !Handled(t, r, error).events[i].UpstreamCall?
  {
  }

  /** What an upstream call sends is what some transport call was given. */
  ghost predicate FromAStep(r: Request, steps: seq<ProxyStep>, e: Event) {
    e.UpstreamCall? ==>
      exists step :: step in steps && step.CallTransport? && e.headers == Outgoing(r.(headers := step.headers)).headers
  }

  lemma {:induction false} PlayedSends(r: Request, t: Trace, steps: seq<ProxyStep>)
    requires Carried(r) && forall e :: e in t.events ==> !e.UpstreamCall?
    ensures forall e :: e in Played(t, r, steps).events ==> FromAStep(r, steps, e)
  {
    if steps != [] {
      var before, last := steps[..|steps| - 1], steps[|steps| - 1];
      PlayedSends(r, t, before);
      assert steps == before + [last];
      forall e | e in Played(t, r, steps).events
        ensures FromAStep(r, steps, e)
      {
        if e in Played(t, r, before).events {
          FromAStepStays(r, before, last, e);
        } else if last.CallTransport? {
          assert last in steps;
        } else {
          HandledAddsNoCall(Played(t, r, before), r.(headers := last.headers), last.error, e);
        }
      }
    }
  }

  lemma FromAStepStays(r: Request, before: seq<ProxyStep>, last: ProxyStep, e: Event)
    requires FromAStep(r, before, e)
    ensures FromAStep(r, before + [last], e)
  {
    if e.UpstreamCall? {
      var step :| step in before && step.CallTransport? && e.headers == Outgoing(r.(headers := step.headers)).headers;
      assert step in before + [last];
    }
  }

  lemma HandledAddsNoCall(t: Trace, r: Request, error: Option<Failure>, e: Event)
    requires e in Handled(t, r, error).events && e !in t.events
    ensures !e.UpstreamCall?
  {
  }

  /** What goes upstream is what the reverse proxy gave the transport, with the bearer token back in place when there
      is no impersonation. */
  ghost predicate SentFor(r: Request, given: Header, sent: Header) {
    if !r.noImpersonation then sent == given
    else
      Values(sent, "Authorization") == Values(given, "Authorization") + [r.bearer]
      && forall k :: k != CanonicalKey("Authorization") ==>
           (k in sent <==> k in given) && (k in given ==> sent[k] == given[k])
  }

  lemma UpstreamSends(c: Config, w: World, r: Request, i: nat)
    requires Enters(c, w, r) && i < |Left(c, w, r).events| && Left(c, w, r).events[i].UpstreamCall?
    ensures exists step ::
      (step in w.proxy && step.CallTransport?
       && SentFor(Authenticate(c, w, r).request, step.headers, Left(c, w, r).events[i].headers))
  {
    UpstreamFollowsAllow(c, w, r, i);
    var r', call := Authenticate(c, w, r).request, Left(c, w, r).events[i];
    PlayedSends(r', FRESH, w.proxy);
    assert FromAStep(r', w.proxy, call);
    var step :| step in w.proxy && step.CallTransport? && call.headers == Outgoing(r'.(headers := step.headers)).headers;
    CanonicalKeyIsIdempotent("Authorization");
    assert SentFor(r', step.headers, call.headers);
  }

  /** An allow names the identities of the request it is for. */
  ghost predicate NamesIdentities(w: World, target: Option<User>, d: Decision) {
    var accepted := w.authentication.Accepted?;
    && d.allowed && d.reason == "" && d.target == None
    && d.authMethod == (if accepted then "oidc" else "tokenreview")
    && d.inbound == (if accepted then Some(w.authentication.user) else None)
    && d.outbound == target
  }

  lemma AdmittedAllowance(c: Config, w: World, r: Request, headers: Header)
    requires Enters(c, w, r) && Authenticate(c, w, r).Forward?
    ensures var a := Authenticate(c, w, r);
      NamesIdentities(w, TargetOf(a), Allowance(a.request.(headers := headers)))
  {
  }

  /** The record right before an upstream call names the identities the call is made for: the token's as the inbound
      one, unless a token review let the token itself through, and the target as the outbound one, if there is one. */
  lemma AllowNamesTheIdentities(c: Config, w: World, r: Request, i: nat)
    requires Enters(c, w, r) && i < |Left(c, w, r).events| && Left(c, w, r).events[i].UpstreamCall?
    ensures i >= 2 && Left(c, w, r).events[i - 2].AccessRecord?
    ensures NamesIdentities(w, TargetOf(Authenticate(c, w, r)), Left(c, w, r).events[i - 2].decision)
  {
    UpstreamFollowsAllow(c, w, r, i);
    AdmittedAllowance(c, w, r, Left(c, w, r).events[i].headers);
  }

  // ---- The identity it carries ----

  /** The target of an admitted request, if it impersonates somebody. */
  function TargetOf(a: Admission): Option<User> {
    if a.Forward? && a.request.impersonation.Some? then a.request.impersonation.value.impersonated else None
  }

  /** The outbound identity is the token's own, and holds no name the API server reserves beyond what every
      user gets and the operator allowed; its extras are the token's with the additions. */
  ghost predicate OwnIdentity(c: Config, w: World, r: Request, user: User, out: ImpersonationConfig) {
    && out.name == user.name != "" && !(SYSTEM <= out.name) && out.uid == user.uid
    && CarriesGroups(out.groups, user.groups)
    && (forall g :: g in out.groups && SYSTEM <= g ==> g == ALL_AUTHENTICATED || g in c.allowedReservedGroups)
    && out.extra == OutboundExtra(c, w, user, user, false, SourceIP(r))
  }

  /** Whether a question was asked about a request, for this requester, and answered allow. */
  ghost predicate AskedAndAllowed(c: Config, w: World, r: Request, user: User, ask: Auth.Ask)
    requires Ordered(w, r.headers)
  {
    var asked := QuestionsAbout(c, w, r, user);
    exists n :: 0 <= n < |asked| && asked[n] == ask && w.sar(n, asked[n]).Allowed?
  }

  /** The outbound identity is a target: exactly the one the request's headers name, every question about a part
      of it asked for this requester and answered allow, within the cap; its extras are the target's with the
      additions. */
  ghost predicate AllowedTarget(c: Config, w: World, r: Request, user: User, target: User, out: ImpersonationConfig)
    requires Ordered(w, r.headers)
  {
    && out.name == target.name != "" && out.uid == target.uid && CarriesGroups(out.groups, target.groups)
    && out.extra == OutboundExtra(c, w, target, user, true, SourceIP(r))
    && Laws.Names(r.headers, target)
    && |QuestionsAbout(c, w, r, user)| <= Auth.CountValues(r.headers, w.order) <= c.maxHeaderValues
    && (forall ask :: Laws.Justifies(r.headers, target, ask) ==> AskedAndAllowed(c, w, r, user, ask))
  }

  /** Whether an outbound identity is one of the two kinds. */
  ghost predicate Justified(c: Config, w: World, r: Request, user: User, target: Option<User>, out: ImpersonationConfig)
    requires Ordered(w, r.headers)
  {
    if target.Some? then AllowedTarget(c, w, r, user, target.value, out) else OwnIdentity(c, w, r, user, out)
  }

  ghost predicate NoImpersonationLeft(h: Header) {
    forall k :: k in h ==> !Auth.Impersonates(k)
  }

  /** Whose identity an upstream call carries on the client transport, and what it leaves of the headers. */
  lemma IdentityIsJustified(c: Config, w: World, r: Request, i: nat)
    requires Enters(c, w, r) && FromServer(r.headers)
    requires i < |Left(c, w, r).events| && Left(c, w, r).events[i].UpstreamCall?
    requires Left(c, w, r).events[i].carrier.ClientTransport?
    ensures w.authentication.Accepted? && Guarded(c, w.authentication.user)
    ensures Authenticate(c, w, r).Forward? && Authenticate(c, w, r).request.impersonation.Some?
    ensures var user, out := w.authentication.user, Left(c, w, r).events[i].carrier.config;
      var target := TargetOf(Authenticate(c, w, r));
      Justified(c, w, r, user, target, out)
    ensures NoImpersonationLeft(Authenticate(c, w, r).request.headers)
    ensures forall k :: k in r.headers && !Auth.Impersonates(k) ==>
      k in Authenticate(c, w, r).request.headers && Authenticate(c, w, r).request.headers[k] == r.headers[k]
  {
    UpstreamFollowsAllow(c, w, r, i);
    AdmittedFacts(c, w, r);
    var r' := Authenticate(c, w, r).request;
    var target := r'.impersonation.value.impersonated;
    if target.Some? {
      TargetIsAllowed(c, w, r, w.authentication.user, target.value, r'.headers);
    }
  }

  lemma TargetIsAllowed(c: Config, w: World, r: Request, user: User, target: User, headers: Header)
    requires Ordered(w, r.headers) && FromServer(r.headers)
    requires Auth.Check(r.headers, w.order, w.order2, user, c.maxHeaderValues, w.sar).0 == Auth.Granted(target, headers)
    ensures headers == Laws.Kept(r.headers) && target.name != "" && Laws.Names(r.headers, target)
    ensures |QuestionsAbout(c, w, r, user)| <= Auth.CountValues(r.headers, w.order) <= c.maxHeaderValues
    ensures forall ask :: Laws.Justifies(r.headers, target, ask) ==> AskedAndAllowed(c, w, r, user, ask)
  {
    Laws.GrantedMeans(r.headers, w.order, w.order2, user, c.maxHeaderValues, w.sar);
    Laws.QuestionsAreCapped(r.headers, w.order, w.order2, user, c.maxHeaderValues, w.sar);
    var asked := QuestionsAbout(c, w, r, user);
    forall ask | Laws.Justifies(r.headers, target, ask)
      ensures AskedAndAllowed(c, w, r, user, ask)
    {
      assert ask in asked;
      var n :| 0 <= n < |asked| && asked[n] == ask;
      assert w.sar(n, asked[n]).Allowed?;
    }
  }

  /** Without impersonation a request goes upstream on the transport that carries no proxy credentials, which
      Run built, and only for a token a review accepted or with impersonation switched off. */
  lemma NoAuthIsIntended(c: Config, w: World, r: Request, i: nat)
    requires Enters(c, w, r) && i < |Left(c, w, r).events| && Left(c, w, r).events[i].UpstreamCall?
    requires Left(c, w, r).events[i].carrier.NoAuthTransport?
    ensures Authenticate(c, w, r).Forward?
    ensures var r' := Authenticate(c, w, r).request; PassedThrough(c, w, r') || ImpersonationOff(c, w, r')
    ensures c.tokenReview || c.disableImpersonation
  {
    UpstreamFollowsAllow(c, w, r, i);
    AdmittedFacts(c, w, r);
  }

  // ---- The extras it carries ----

  predicate IsOriginalKey(k: string) {
    k in {ORIGINAL_USER, ORIGINAL_GROUPS, ORIGINAL_UID, ORIGINAL_EXTRA}
  }

  /** What the reserved keys are meant to say about the requester. */
  function RequesterValues(w: World, user: User, k: string): seq<string> {
    if k == ORIGINAL_USER then [user.name]
    else if k == ORIGINAL_GROUPS then user.groups
    else if k == ORIGINAL_UID then if user.uid == "" then [] else [user.uid]
    else if user.extra == map[] || w.encoded.None? then [] else [w.encoded.value]
  }

  /** The values under one key: the identity's own, the resolved client address and the operator's, in that
      order; under a reserved key of an impersonated request the requester's, unless there are none. */
  lemma ExtrasAt(c: Config, w: World, identity: User, user: User, impersonated: bool, ip: string, k: string)
    requires impersonated && user.extra != map[] ==> w.encoded.Some?
    ensures At(OutboundExtra(c, w, identity, user, impersonated, ip), k)
      == if impersonated && IsOriginalKey(k) && RequesterValues(w, user, k) != [] then RequesterValues(w, user, k)
         else At(identity.extra, k) + (if c.clientIPExtra && k == CLIENT_IP_KEY then [ip] else [])
              + At(c.extraHeaders, k)
  {
    OriginalKeysDiffer();
    MergedAt(c, identity.extra, ip, k);
    if impersonated {
      OriginalEntries(w, Enriched(c, identity.extra, ip), user, k);
    }
  }

  lemma OriginalKeysDiffer()
    ensures ORIGINAL_USER != ORIGINAL_GROUPS && ORIGINAL_USER != ORIGINAL_UID && ORIGINAL_USER != ORIGINAL_EXTRA
    ensures ORIGINAL_GROUPS != ORIGINAL_UID && ORIGINAL_GROUPS != ORIGINAL_EXTRA && ORIGINAL_UID != ORIGINAL_EXTRA
  {
    assert |ORIGINAL_USER| == 29 && |ORIGINAL_GROUPS| == 31 && |ORIGINAL_UID| == 28 && |ORIGINAL_EXTRA| == 30;
  }

  lemma MergedAt(c: Config, extra: Extra, ip: string, k: string)
    ensures At(Enriched(c, extra, ip), k)
      == At(extra, k) + (if c.clientIPExtra && k == CLIENT_IP_KEY then [ip] else []) + At(c.extraHeaders, k)
  {
  }

  lemma OriginalEntries(w: World, extra: Extra, user: User, k: string)
    requires user.extra != map[] ==> w.encoded.Some?
    ensures At(WithOriginal(extra, user, if w.encoded.Some? then w.encoded.value else ""), k)
      == if IsOriginalKey(k) && RequesterValues(w, user, k) != [] then RequesterValues(w, user, k) else At(extra, k)
  {
    OriginalKeysDiffer();
  }

  lemma ClientIPKeyIsNotReserved()
    ensures !IsOriginalKey(CLIENT_IP_KEY)
  {
    assert |CLIENT_IP_KEY| == 16;
    assert |ORIGINAL_USER| == 29 && |ORIGINAL_GROUPS| == 31 && |ORIGINAL_UID| == 28 && |ORIGINAL_EXTRA| == 30;
  }

  /** Every extra value an upstream call carries, outside the reserved keys of an impersonated request, is the
      operator's, the resolved client address, the token's own, or a value of the target that was asked for
      under that very key and answered allow. */
  lemma ExtraValuesAreJustified(c: Config, w: World, r: Request, i: nat, k: string, v: string)
    requires Enters(c, w, r) && FromServer(r.headers)
    requires i < |Left(c, w, r).events| && Left(c, w, r).events[i].UpstreamCall?
    requires Left(c, w, r).events[i].carrier.ClientTransport?
    requires v in At(Left(c, w, r).events[i].carrier.config.extra, k)
    requires TargetOf(Authenticate(c, w, r)).Some? ==> !IsOriginalKey(k)
    ensures w.authentication.Accepted?
    ensures var user, target := w.authentication.user, TargetOf(Authenticate(c, w, r));
      || v in At(c.extraHeaders, k)
      || (c.clientIPExtra && k == CLIENT_IP_KEY && v == SourceIP(r))
      || (target.None? && v in At(user.extra, k))
      || (target.Some? && v in At(target.value.extra, k)
          && AskedAndAllowed(c, w, r, user, Auth.Ask(EXTRA_RESOURCE + k, v)))
  {
    IdentityIsJustified(c, w, r, i);
    AdmittedEncodes(c, w, r);
    ValueIsJustified(
      c, w, r, w.authentication.user, TargetOf(Authenticate(c, w, r)), Left(c, w, r).events[i].carrier.config, k, v);
  }

  lemma ValueIsJustified(
    c: Config, w: World, r: Request, user: User, target: Option<User>, out: ImpersonationConfig, k: string, v: string)
    requires Ordered(w, r.headers) && Justified(c, w, r, user, target, out) && v in At(out.extra, k)
    requires target.Some? ==> !IsOriginalKey(k) && (user.extra != map[] ==> w.encoded.Some?)
    ensures
      || v in At(c.extraHeaders, k)
      || (c.clientIPExtra && k == CLIENT_IP_KEY && v == SourceIP(r))
      || (target.None? && v in At(user.extra, k))
      || (target.Some? && v in At(target.value.extra, k)
          && AskedAndAllowed(c, w, r, user, Auth.Ask(EXTRA_RESOURCE + k, v)))
  {
    var identity := if target.Some? then target.value else user;
    ValueComesFrom(c, w, identity, user, target.Some?, SourceIP(r), k, v);
    if target.Some? {
      TargetValueJustifies(r.headers, target.value, k, v);
    }
  }

  lemma ValueComesFrom(
    c: Config, w: World, identity: User, user: User, impersonated: bool, ip: string, k: string, v: string)
    requires impersonated && user.extra != map[] ==> w.encoded.Some?
    requires impersonated ==> !IsOriginalKey(k)
    requires v in At(OutboundExtra(c, w, identity, user, impersonated, ip), k)
    ensures v in At(identity.extra, k) || (c.clientIPExtra && k == CLIENT_IP_KEY && v == ip) || v in At(c.extraHeaders, k)
  {
    ExtrasAt(c, w, identity, user, impersonated, ip, k);
  }

  lemma TargetValueJustifies(h: Header, target: User, k: string, v: string)
    ensures v in At(target.extra, k) ==> Laws.Justifies(h, target, Auth.Ask(EXTRA_RESOURCE + k, v))
  {
    if v in At(target.extra, k) {
      assert k in target.extra;
    }
  }

  lemma AdmittedEncodes(c: Config, w: World, r: Request)
    requires Enters(c, w, r) && Authenticate(c, w, r).Forward? && w.authentication.Accepted?
    ensures TargetOf(Authenticate(c, w, r)).Some? && w.authentication.user.extra != map[] ==> w.encoded.Some?
  {
    AdmittedFacts(c, w, r);
  }

  /** In the config of an impersonating call a reserved key holds the requester's values if and only if the requester has
      some, or neither the target nor the operator supplies that key. */
  lemma ReservedKeysHoldTheRequesterExactlyWhen(c: Config, w: World, r: Request, i: nat, k: string)
    requires Enters(c, w, r) && FromServer(r.headers) && IsOriginalKey(k)
    requires i < |Left(c, w, r).events| && Left(c, w, r).events[i].UpstreamCall?
    requires Left(c, w, r).events[i].carrier.ClientTransport?
    requires TargetOf(Authenticate(c, w, r)).Some?
    ensures w.authentication.Accepted?
    ensures var values := At(Left(c, w, r).events[i].carrier.config.extra, k);
      var requester := RequesterValues(w, w.authentication.user, k);
      var others := At(TargetOf(Authenticate(c, w, r)).value.extra, k) + At(c.extraHeaders, k);
      && values == (if requester != [] then requester else others)
      && (values == requester <==> requester != [] || others == [])
  {
    IdentityIsJustified(c, w, r, i);
    AdmittedEncodes(c, w, r);
    ReservedValues(c, w, TargetOf(Authenticate(c, w, r)).value, w.authentication.user, SourceIP(r), k);
  }

  lemma ReservedValues(c: Config, w: World, target: User, user: User, ip: string, k: string)
    requires IsOriginalKey(k) && (user.extra != map[] ==> w.encoded.Some?)
    ensures At(OutboundExtra(c, w, target, user, true, ip), k)
      == if RequesterValues(w, user, k) != [] then RequesterValues(w, user, k)
         else At(target.extra, k) + At(c.extraHeaders, k)
  {
    ClientIPKeyIsNotReserved();
    ExtrasAt(c, w, target, user, true, ip, k);
    assert At(target.extra, k) + [] + At(c.extraHeaders, k) == At(target.extra, k) + At(c.extraHeaders, k);
  }

  const EXTRA_HEADER := "Impersonate-Extra-"
  const GROUPS_NAME := "Originaluser.jetstack.io-Groups"
  const GROUPS_HEADER := EXTRA_HEADER + GROUPS_NAME

  lemma LowerConcat(a: string, b: string)
    ensures Lower(a + b) == Lower(a) + Lower(b)
  {
  }

  lemma LowerHeads()
    ensures Lower(EXTRA_HEADER) == Auth.EXTRA_PREFIX
  {
  }

  lemma LowerNames()
    ensures Lower(GROUPS_NAME) == ORIGINAL_GROUPS
  {
  }

  lemma GroupsHeaderNamesTheKey()
    ensures Auth.IsExtra(GROUPS_HEADER) && Auth.ExtraName(GROUPS_HEADER) == ORIGINAL_GROUPS
  {
    LowerHeads();
    LowerNames();
    LowerConcat(EXTRA_HEADER, GROUPS_NAME);
    assert |EXTRA_HEADER| == |Auth.EXTRA_PREFIX|;
    assert GROUPS_HEADER[|Auth.EXTRA_PREFIX|..] == GROUPS_NAME;
  }

  /** A request for which it does not: a requester without groups impersonates a target with an extra header of
      that name, and the key that is meant for the requester's groups carries the header's values. */
  lemma GroupsKeyWithoutGroups(c: Config, w: World, r: Request, i: nat)
    requires Enters(c, w, r) && FromServer(r.headers) && GROUPS_HEADER in r.headers
    requires i < |Left(c, w, r).events| && Left(c, w, r).events[i].UpstreamCall?
    requires Left(c, w, r).events[i].carrier.ClientTransport?
    requires w.authentication.Accepted? && w.authentication.user.groups == []
    ensures At(Left(c, w, r).events[i].carrier.config.extra, ORIGINAL_GROUPS)
      == r.headers[GROUPS_HEADER] + At(c.extraHeaders, ORIGINAL_GROUPS) != []
  {
    GroupsHeaderNamesTheKey();
    IdentityIsJustified(c, w, r, i);
    AdmittedFacts(c, w, r);
    Laws.KindsAreDisjoint(GROUPS_HEADER);
    assert HasImpersonation(r.headers);
    ReservedKeysHoldTheRequesterExactlyWhen(c, w, r, i, ORIGINAL_GROUPS);
    OriginalKeysDiffer();
  }

  /** When everything is allowed, such a request is admitted and does reach the API server. */
  lemma GroupsKeyWithoutGroupsArises(
    c: Config, w: World, r: Request, verdict: Auth.Ask -> Auth.Answer, headers: Header)
    requires Enters(c, w, r) && FromServer(r.headers) && GROUPS_HEADER in r.headers && !c.disableImpersonation
    requires w.authentication == Accepted(User("alice", "", [], map[])) && w.sar == Laws.Fixed(verdict)
    requires Laws.AllAllowed(r.headers, verdict) && Auth.CountValues(r.headers, w.order) <= c.maxHeaderValues
    requires w.auditPasses && w.proxy == [CallTransport(headers)]
    ensures var events := Left(c, w, r).events;
      && |events| == 3 && events[2].UpstreamCall? && events[2].carrier.ClientTransport?
      && At(events[2].carrier.config.extra, ORIGINAL_GROUPS)
           == r.headers[GROUPS_HEADER] + At(c.extraHeaders, ORIGINAL_GROUPS) != []
  {
    var user := w.authentication.user;
    GroupsHeaderNamesTheKey();
    Laws.KindsAreDisjoint(GROUPS_HEADER);
    assert HasImpersonation(r.headers);
    Laws.OutcomeUnderFixedVerdicts(r.headers, w.order, w.order2, user, c.maxHeaderValues, verdict);
    PlainUserIsAdmitted(c, w, r, user);
    OneCall(c, w, r, headers);
    GroupsKeyWithoutGroups(c, w, r, 2);
  }

  lemma PlainUserIsAdmitted(c: Config, w: World, r: Request, user: User)
    requires Enters(c, w, r) && !c.disableImpersonation && w.authentication == Accepted(user)
    requires user == User("alice", "", [], map[]) && Authorized(c, w, r.headers, user).Granted?
    ensures Authenticate(c, w, r).Forward? && Authenticate(c, w, r).request.impersonation.Some?
  {
    assert !(SYSTEM <= user.name) by {
      assert SYSTEM[0] == 's' && user.name[0] == 'a';
    }
  }

  lemma OneCall(c: Config, w: World, r: Request, headers: Header)
    requires Enters(c, w, r) && Authenticate(c, w, r).Forward? && Authenticate(c, w, r).request.impersonation.Some?
    requires w.auditPasses && w.proxy == [CallTransport(headers)]
    ensures var events := Left(c, w, r).events;
      |events| == 3 && events[2].UpstreamCall? && events[2].carrier.ClientTransport?
  {
    AdmittedFacts(c, w, r);
    var r' := Authenticate(c, w, r).request;
    assert w.proxy[..0] == [];
    assert Played(FRESH, r', w.proxy) == Stepped(FRESH, r', w.proxy[0]);
  }

  // ---- What reaches the lifecycle filter ----

  /** A failure of the call upstream, which carries no sentinel of the proxy's own, decides nothing: it is answered with
      502 and leaves its classification for the lifecycle filter. */
  lemma UpstreamFailureLeaves(t: Trace, r: Request, f: Failure)
    requires f.marks !! OWN
    requires f.marks * {NetError, NetTimeout, DeadlineExceeded, EndOfStream, ConnectionReset, OtherTransport} != {}
    ensures var t' := Handled(t, r, Some(f));
      var timedOut := f.marks * {NetTimeout, DeadlineExceeded} != {};
      var reset := f.marks * {EndOfStream, ConnectionReset} != {};
      && t'.events == t.events + [Answer(502)] && t'.recorded == t.recorded && t'.reason == "upstream_error"
      && (t'.termination == "upstream_timeout" <==> timedOut)
      && (t'.termination == "upstream_reset" <==> !timedOut && reset)
      && t'.termination in {"upstream_timeout", "upstream_reset", "proxy_error"}
  {
    UpstreamExactlyWhenForeign(f.marks);
    assert |"upstream_timeout"| == 16 && |"upstream_reset"| == 14 && |"proxy_error"| == 11;
    forall m: Mark
      ensures m in f.marks * {NetTimeout, DeadlineExceeded} <==> m in f.marks && m in {NetTimeout, DeadlineExceeded}
      ensures m in f.marks * {EndOfStream, ConnectionReset} <==> m in f.marks && m in {EndOfStream, ConnectionReset}
    {
    }
  }

  predicate FailsUpstream(step: ProxyStep) {
    step.ReportError? && step.error.Some? && Dispose(step.error.value.marks).UpstreamFailure?
  }

  /** The classification of the last upstream failure reported, if any. */
  function LastUpstreamFailure(steps: seq<ProxyStep>): string {
    if steps == [] then ""
    else
      var last := steps[|steps| - 1];
      if FailsUpstream(last) then UpstreamTermination(last.error.value.marks)
      else LastUpstreamFailure(steps[..|steps| - 1])
  }

  lemma {:induction false} PlayedTerminates(t: Trace, r: Request, steps: seq<ProxyStep>)
    requires Carried(r) && t.termination == ""
    ensures Played(t, r, steps).termination == LastUpstreamFailure(steps)
    ensures LastUpstreamFailure(steps) != "" <==> exists step :: step in steps && FailsUpstream(step)
  {
    if steps != [] {
      var before, last := steps[..|steps| - 1], steps[|steps| - 1];
      assert steps == before + [last];
      PlayedTerminates(t, r, before);
    }
  }

  /** A classification written through the shared holder, however far down, is what the lifecycle filter reads:
      the last upstream failure's, and nothing for any other ending. */
  lemma ClassificationReachesTheTop(c: Config, w: World, r: Request)
    requires Enters(c, w, r) && ReviewErrorsAreMarked(c, w, r)
    ensures Left(c, w, r).termination
      == if Authenticate(c, w, r).Forward? && w.auditPasses then LastUpstreamFailure(w.proxy) else ""
  {
    match Authenticate(c, w, r) {
      case Refuse(r', failure) => RefusedIsRecorded(c, w, r);
      case Forward(r') =>
        AdmittedFacts(c, w, r);
        PlayedTerminates(FRESH, r', w.proxy);
    }
  }

  predicate ReasonGoesWithTermination(t: Trace) {
    t.reason == if t.termination == "" then "" else "upstream_error"
  }

  lemma HandledReasons(t: Trace, r: Request, error: Option<Failure>)
    requires ReasonGoesWithTermination(t)
    ensures ReasonGoesWithTermination(Handled(t, r, error))
  {
  }

  lemma {:induction false} PlayedReasons(t: Trace, r: Request, steps: seq<ProxyStep>)
    requires Carried(r) && ReasonGoesWithTermination(t)
    ensures ReasonGoesWithTermination(Played(t, r, steps))
  {
    if steps != [] {
      var before, last := steps[..|steps| - 1], steps[|steps| - 1];
      PlayedReasons(t, r, before);
      if last.ReportError? {
        HandledReasons(Played(t, r, before), r.(headers := last.headers), last.error);
      }
    }
  }

  /** The reason travels with its classification. */
  lemma ReasonReachesTheTop(c: Config, w: World, r: Request)
    requires Enters(c, w, r)
    ensures ReasonGoesWithTermination(Left(c, w, r))
  {
    match Authenticate(c, w, r) {
      case Refuse(r', failure) => HandledReasons(FRESH, r', Some(failure));
      case Forward(r') =>
        AdmittedFacts(c, w, r);
        PlayedReasons(FRESH, r', w.proxy);
    }
  }

  // ---- Who the record names ----

  ghost predicate NamesInbound(r: Request, e: Event) {
    e.AccessRecord? ==> e.decision.inbound == if e.decision.allowed then Allowance(r).inbound else r.user
  }

  lemma HandledNames(t: Trace, r: Request, headers: Header, error: Option<Failure>)
    requires forall e :: e in t.events ==> NamesInbound(r, e)
    ensures forall e :: e in Handled(t, r.(headers := headers), error).events ==> NamesInbound(r, e)
  {
  }

  lemma {:induction false} PlayedNames(t: Trace, r: Request, steps: seq<ProxyStep>)
    requires forall e :: e in t.events ==> NamesInbound(r, e)
    ensures forall e :: e in Played(t, r, steps).events ==> NamesInbound(r, e)
  {
    if steps != [] {
      var n := |steps| - 1;
      PlayedNames(t, r, steps[..n]);
      match steps[n] {
        case CallTransport(headers) =>
          if !Carried(r) {
            HandledNames(Played(t, r, steps[..n]), r, headers, Some(Plain(NoImpersonationConfig)));
          }
        case ReportError(headers, error) => HandledNames(Played(t, r, steps[..n]), r, headers, error);
      }
    }
  }

  lemma AdmittedUser(c: Config, w: World, r: Request)
    requires Enters(c, w, r) && w.authentication.Accepted?
    ensures var a := Authenticate(c, w, r);
      && a.request.user == (if TargetOf(a).Some? then TargetOf(a) else Some(w.authentication.user))
      && (a.Forward? ==> Allowance(a.request).inbound == Some(w.authentication.user))
  {
  }

  /** The record of an authenticated request names the requester as its inbound identity exactly when it is an
      allow or nobody else is impersonated: once a target has replaced the context's user, a refusal coming
      from the reverse proxy is recorded under the target. */
  lemma InboundIsRequesterExactlyWhen(c: Config, w: World, r: Request, e: Event)
    requires Enters(c, w, r) && w.authentication.Accepted?
    requires e in Left(c, w, r).events && e.AccessRecord?
    ensures var user, target := w.authentication.user, TargetOf(Authenticate(c, w, r));
      e.decision.inbound == Some(user) <==> e.decision.allowed || target.None? || target == Some(user)
  {
    AdmittedUser(c, w, r);
    match Authenticate(c, w, r) {
      case Refuse(r', failure) => HandledNames(FRESH, r', r'.headers, Some(failure));
      case Forward(r') => PlayedNames(FRESH, r', w.proxy);
    }
  }

  /** Such a refusal: the reverse proxy reports an error before it calls the transport. */
  lemma EarlyProxyRefusalNamesTheTarget(c: Config, w: World, r: Request, headers: Header, f: Failure)
    requires Enters(c, w, r) && w.authentication.Accepted? && w.auditPasses
    requires w.proxy == [ReportError(headers, Some(f))] && Dispose(f.marks).Refusal?
    requires TargetOf(Authenticate(c, w, r)).Some?
    ensures var events := Left(c, w, r).events;
      && events != [] && events[0].AccessRecord? && !events[0].decision.allowed
      && events[0].decision.inbound == TargetOf(Authenticate(c, w, r))
  {
    var r' := Authenticate(c, w, r).request;
    assert w.proxy[..0] == [];
    assert Played(FRESH, r', w.proxy) == Stepped(FRESH, r', w.proxy[0]);
    AdmittedUser(c, w, r);
  }
}
