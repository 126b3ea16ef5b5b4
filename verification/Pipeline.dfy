/** One request through the handler chain. Each filter hands a derived request to the next; what a filter
    below decides reaches the ones above only through the two holders all of them share. */
module Pipeline {
  import opened Strings
  import opened Headers
  import opened ReviewSpec
  import opened Errors
  import opened ErrorHandler
  import Auth = Authorizer
  import opened ClientIP

  const SYSTEM := "system:"
  const ALL_AUTHENTICATED := "system:authenticated"
  const CLIENT_IP_KEY := "Remote-Client-IP"
  const ORIGINAL_USER := "originaluser.jetstack.io-user"
  const ORIGINAL_GROUPS := "originaluser.jetstack.io-groups"
  const ORIGINAL_UID := "originaluser.jetstack.io-uid"
  const ORIGINAL_EXTRA := "originaluser.jetstack.io-extra"

  datatype Config = Config(
    tokenReview: bool, disableImpersonation: bool, allowedReservedGroups: set<string>,
    clientIPExtra: bool, extraHeaders: map<string, seq<string>>, maxHeaderValues: int, networks: Networks)

  type Extra = map<string, seq<string>>

  datatype ImpersonationConfig = ImpersonationConfig(name: string, uid: string, groups: seq<string>, extra: Extra)

  /** context.ImpersonationRequest */
  datatype Impersonation = Impersonation(config: ImpersonationConfig, inbound: User, impersonated: Option<User>)

  // ---- What a request leaves behind ----

  datatype Decision = Decision(
    allowed: bool, reason: string, authMethod: string, srcIP: string, inbound: Option<User>, outbound: Option<User>,
    target: Option<(string, string)>)

  datatype Carrier = NoAuthTransport | ClientTransport(config: ImpersonationConfig)

  datatype Event =
    | AccessRecord(decision: Decision)
    | DecisionCount(authMethod: string, allowed: bool, reason: string)
    | UpstreamCall(carrier: Carrier, headers: Header)
    | Answer(status: int)

  /** The log so far and what the request's two holders say. */
  datatype Trace = Trace(events: seq<Event>, recorded: bool, termination: string, reason: string)

  class DecisionHolder {
    var recorded: bool

    constructor ()
      ensures !recorded
    {
      recorded := false;
    }
  }

  class TerminationHolder {
    var termination: string
    var reason: string

    constructor ()
      ensures termination == "" && reason == ""
    {
      termination, reason := "", "";
    }
  }

  /** A request with the context values of the filters it has passed, and the trusted networks in force, which
      both resolvers take from one setting. Deriving one copies everything but the holders, which are shared. */
  datatype Request = Request(
    remote: Remote, networks: Networks, headers: Header, authMethod: string, user: Option<User>, bearer: string,
    noImpersonation: bool, impersonation: Option<Impersonation>,
    decision: DecisionHolder, termination: TerminationHolder)

  // ---- What the code outside the chain does ----

  datatype Authentication = Rejected | Anonymous | Accepted(user: User)

  /** One thing the reverse proxy does with an admitted request, whose headers it has edited. */
  datatype ProxyStep =
    | CallTransport(headers: Header)
    | ReportError(headers: Header, error: Option<Failure>)

  /** Everything the chain consults for one request: the authenticator, the token reviewer, the orders a header
      map is iterated in, the answers to authorization questions, the JSON encoder, the audit filter, and the
      reverse proxy. */
  datatype World = World(
    authentication: Authentication, bearerFound: bool, tokenAccepted: bool,
    order: seq<string>, order2: seq<string>, sar: Auth.Oracle,
    encoded: Option<string>, auditPasses: bool, proxy: seq<ProxyStep>)

  // ---- Recording ----

  /** What the access record shows: an allow carries no reason and no refused target. */
  function Shown(d: Decision): Decision {
    if d.allowed then d.(reason := "", target := None) else d
  }

  function Recorded(t: Trace, d: Decision): Trace {
    t.(events := t.events + [
         AccessRecord(Shown(d)), DecisionCount(d.authMethod, d.allowed, if d.allowed then "" else d.reason)],
       recorded := true)
  }

  /** The address the access record shows. */
  function SourceIP(r: Request): string {
    Client(r.headers, r.remote, r.networks)
  }

  function Denial(r: Request, reason: string, f: Failure): Decision {
    Decision(false, reason, r.authMethod, SourceIP(r), r.user, None,
             if f.denied.Some? then Some((TargetKind(f.denied.value.0), TrimQuotes(f.denied.value.1))) else None)
  }

  function Denied(t: Trace, r: Request, reason: string, f: Failure): Trace {
    if t.recorded then t else Recorded(t, Denial(r, reason, f))
  }

  function Handled(t: Trace, r: Request, error: Option<Failure>): Trace {
    match error
    case None => t.(events := t.events + [Answer(500)])
    case Some(f) =>
      match Dispose(f.marks)
      case Refusal(reason, status) =>
        var denied := Denied(t, r, reason, f);
        if status.None? then denied else denied.(events := denied.events + [Answer(status.value)])
      case UpstreamFailure(termination) =>
        t.(events := t.events + [Answer(502)], termination := termination, reason := "upstream_error")
  }

  // ---- The filters ----

  /** What the filters ahead of the audit filter and the reverse proxy make of a request. */
  datatype Admission = Forward(request: Request) | Refuse(request: Request, failure: Failure)

  predicate Reserved(group: string, allowed: set<string>) {
    SYSTEM <= group && group != ALL_AUTHENTICATED && group !in allowed
  }

  predicate ReservedIdentityIn(u: User, allowed: set<string>) {
    SYSTEM <= u.name || exists g :: g in u.groups && Reserved(g, allowed)
  }

  predicate HasImpersonation(h: Header) {
    exists k :: k in h && Auth.Impersonates(k)
  }

  /** The request's headers, and two orders in which a map of them may be iterated. */
  ghost predicate Ordered(w: World, h: Header) {
    Auth.NonEmptyLists(h) && Auth.IsOrder(h, w.order) && Auth.IsOrder(h, w.order2)
  }

  /** The authorizer's answer, when it is asked at all. */
  function Authorized(c: Config, w: World, h: Header, user: User): Auth.Outcome
    requires Ordered(w, h)
  {
    if HasImpersonation(h) then Auth.Check(h, w.order, w.order2, user, c.maxHeaderValues, w.sar).0
    else Auth.NotImpersonating
  }

  function WithAllAuthenticated(groups: seq<string>): seq<string> {
    if ALL_AUTHENTICATED in groups then groups else groups + [ALL_AUTHENTICATED]
  }

  function At(e: Extra, k: string): seq<string> {
    if k in e then e[k] else []
  }

  /** Every value of both, the first map's values first. */
  function Merged(a: Extra, b: Extra): Extra {
    map k | k in a.Keys + b.Keys :: At(a, k) + At(b, k)
  }

  /** The entry, unless it stands for nothing. */
  function Entry(extra: Extra, key: string, values: seq<string>, present: bool): Extra {
    if present then extra[key := values] else extra
  }

  /** What the API server's audit log is told about a requester who impersonates. */
  function WithOriginal(extra: Extra, user: User, encoded: string): Extra {
    var named := extra[ORIGINAL_USER := [user.name]];
    var grouped := Entry(named, ORIGINAL_GROUPS, user.groups, user.groups != []);
    var identified := Entry(grouped, ORIGINAL_UID, [user.uid], user.uid != "");
    Entry(identified, ORIGINAL_EXTRA, [encoded], user.extra != map[])
  }

  function Enriched(c: Config, extra: Extra, clientIP: string): Extra {
    var addressed := if c.clientIPExtra then extra[CLIENT_IP_KEY := At(extra, CLIENT_IP_KEY) + [clientIP]] else extra;
    Merged(addressed, c.extraHeaders)
  }

  /** The outbound identity: the requester's own, or the target it was allowed. */
  function Configure(c: Config, w: World, r: Request, user: User, target: Option<User>, clientIP: string): Admission {
    var identity := if target.Some? then target.value else user;
    var enriched := Enriched(c, identity.extra, clientIP);
    if target.Some? && user.extra != map[] && w.encoded.None? then Refuse(r, Failure({}, None))
    else
      var encoded := if w.encoded.Some? then w.encoded.value else "";
      var extra := if target.Some? then WithOriginal(enriched, user, encoded) else enriched;
      var config := ImpersonationConfig(identity.name, identity.uid, WithAllAuthenticated(identity.groups), extra);
      Forward(r.(
        impersonation := Some(Impersonation(config, user, target)),
        user := if target.Some? then target else r.user))
  }

  function Impersonate(c: Config, w: World, r: Request): (a: Admission)
    requires Ordered(w, r.headers)
    ensures a.request.decision == r.decision && a.request.termination == r.termination
  {
    var clientIP := Client(r.headers, r.remote, r.networks);
    if r.noImpersonation then Forward(r)
    else if c.disableImpersonation then Forward(r.(noImpersonation := true))
    else if r.user.None? || r.user.value.name == "" then Refuse(r, Plain(NoName))
    else
      match Authorized(c, w, r.headers, r.user.value)
      case Refused(refusal) => Refuse(r, FailureOf(refusal))
      case NotImpersonating => Configure(c, w, r, r.user.value, None, clientIP)
      case Granted(target, headers) =>
        Configure(c, w, r.(headers := headers), r.user.value, Some(target), clientIP)
  }

  function Passthrough(c: Config, w: World, r: Request): (a: Admission)
    requires Ordered(w, r.headers)
    ensures a.request.decision == r.decision && a.request.termination == r.termination
  {
    if c.tokenReview && w.bearerFound && w.tokenAccepted then
      Impersonate(c, w, r.(authMethod := "tokenreview", noImpersonation := true))
    else Refuse(r, Plain(Unauthorized))
  }

  function Authenticate(c: Config, w: World, r: Request): (a: Admission)
    requires Ordered(w, r.headers)
    ensures a.request.decision == r.decision && a.request.termination == r.termination
  {
    match w.authentication
    case Rejected => Passthrough(c, w, r)
    case Anonymous => Refuse(r, Plain(Unauthorized))
    case Accepted(user) =>
      var named := r.(authMethod := "oidc", user := Some(user));
      if ReservedIdentityIn(user, c.allowedReservedGroups) then Refuse(named, Plain(ReservedIdentity))
      else Impersonate(c, w, named)
  }

  // ---- Below the filters ----

  function Allowance(r: Request): Decision {
    if r.noImpersonation || r.impersonation.None? then
      Decision(true, "", r.authMethod, SourceIP(r), r.user, None, None)
    else
      var i := r.impersonation.value;
      Decision(true, "", r.authMethod, SourceIP(r), Some(i.inbound), i.impersonated, None)
  }

  /** The request RoundTrip sends: without impersonation the bearer token goes back in. */
  function Outgoing(r: Request): Request {
    if r.noImpersonation then r.(headers := Add(r.headers, "Authorization", r.bearer)) else r
  }

  /** RoundTrip, and the error handler on the one error it raises itself. */
  function Transported(t: Trace, r: Request): Trace {
    if !r.noImpersonation && r.impersonation.None? then
      Handled(t, r, Some(Plain(NoImpersonationConfig)))
    else
      var decided := Recorded(t, Allowance(Outgoing(r)));
      var carrier := if r.noImpersonation then NoAuthTransport else ClientTransport(r.impersonation.value.config);
      decided.(events := decided.events + [UpstreamCall(carrier, Outgoing(r).headers)])
  }

  function Stepped(t: Trace, r: Request, step: ProxyStep): Trace {
    match step
    case CallTransport(headers) => Transported(t, r.(headers := headers))
    case ReportError(headers, error) => Handled(t, r.(headers := headers), error)
  }

  function Played(t: Trace, r: Request, steps: seq<ProxyStep>): Trace {
    if steps == [] then t else Stepped(Played(t, r, steps[..|steps| - 1]), r, steps[|steps| - 1])
  }

  function Concluded(t: Trace, w: World, a: Admission): Trace {
    match a
    case Refuse(r, failure) => Handled(t, r, Some(failure))
    case Forward(r) => if w.auditPasses then Played(t, r, w.proxy) else t
  }

  // ---- The chain itself ----

  /** checkReservedIdentity */
  method CheckReservedIdentity(u: User, allowed: set<string>) returns (reserved: bool)
    ensures reserved <==> ReservedIdentityIn(u, allowed)
  {
    if SYSTEM <= u.name {
      return true;
    }
    for i := 0 to |u.groups|
      invariant forall g :: g in u.groups[..i] ==> !Reserved(g, allowed)
    {
      var group := u.groups[i];
      assert u.groups[..i + 1] == u.groups[..i] + [group];
      if group != ALL_AUTHENTICATED && group !in allowed && SYSTEM <= group {
        assert Reserved(group, allowed);
        return true;
      }
    }
    assert u.groups[..|u.groups|] == u.groups;
    return false;
  }

  class Proxy {
    const config: Config
    const hasNoAuthTransport: bool
    var events: seq<Event>

    /** Run's transport setup. */
    constructor (config: Config)
      ensures this.config == config && events == []
      ensures hasNoAuthTransport == (config.disableImpersonation || config.tokenReview)
    {
      this.config := config;
      events := [];
      hasNoAuthTransport := config.disableImpersonation || config.tokenReview;
    }

    ghost predicate Built() {
      hasNoAuthTransport == (config.disableImpersonation || config.tokenReview)
    }

    ghost function View(r: Request): Trace
      reads this, r.decision, r.termination
    {
      Trace(events, r.decision.recorded, r.termination.termination, r.termination.reason)
    }

    method RecordDecision(r: Request, d: Decision)
      modifies this, r.decision
      ensures View(r) == Recorded(old(View(r)), d)
    {
      events := events + [AccessRecord(Shown(d))];
      r.decision.recorded := true;
      var reason := d.reason;
      if d.allowed {
        reason := "";
      }
      events := events + [DecisionCount(d.authMethod, d.allowed, reason)];
    }

    method LogDenied(r: Request, reason: string, f: Failure)
      modifies this, r.decision
      ensures View(r) == Denied(old(View(r)), r, reason, f)
    {
      if r.decision.recorded {
        return;
      }
      RecordDecision(r, Denial(r, reason, f));
    }

    method HandleError(r: Request, error: Option<Failure>)
      modifies this, r.decision, r.termination
      ensures View(r) == Handled(old(View(r)), r, error)
    {
      if error.None? {
        events := events + [Answer(500)];
        return;
      }
      match Dispose(error.value.marks) {
        case Refusal(reason, status) =>
          LogDenied(r, reason, error.value);
          if status.Some? {
            events := events + [Answer(status.value)];
          }
        case UpstreamFailure(termination) =>
          r.termination.termination := termination;
          r.termination.reason := "upstream_error";
          events := events + [Answer(502)];
      }
    }

    /** The transport is only reached through a request that carries what it needs. */
    method RoundTrip(r: Request) returns (error: Option<Failure>)
      requires r.noImpersonation ==> hasNoAuthTransport
      modifies this, r.decision
      ensures error.Some? <==> !r.noImpersonation && r.impersonation.None?
      ensures error.Some? ==> error == Some(Plain(NoImpersonationConfig)) && View(r) == old(View(r))
      ensures error.None? ==> View(r) == Transported(old(View(r)), r)
    {
      if r.noImpersonation {
        var outgoing := r.(headers := Add(r.headers, "Authorization", r.bearer));
        RecordDecision(outgoing, Allowance(outgoing));
        events := events + [UpstreamCall(NoAuthTransport, outgoing.headers)];
        return None;
      }
      if r.impersonation.None? {
        return Some(Plain(NoImpersonationConfig));
      }
      RecordDecision(r, Allowance(r));
      events := events + [UpstreamCall(ClientTransport(r.impersonation.value.config), r.headers)];
      return None;
    }

    /** One thing the reverse proxy does. */
    method Step(r: Request, step: ProxyStep)
      requires r.noImpersonation ==> hasNoAuthTransport
      modifies this, r.decision, r.termination
      ensures View(r) == Stepped(old(View(r)), r, step)
    {
      match step {
        case CallTransport(headers) =>
          var outgoing := r.(headers := headers);
          var error := RoundTrip(outgoing);
          if error.Some? {
            HandleError(outgoing, error);
          }
        case ReportError(headers, error) => HandleError(r.(headers := headers), error);
      }
    }

    /** The audit filter around the reverse proxy, which is given this proxy as its transport and its error
        handler. */
    method Serve(w: World, r: Request)
      requires r.noImpersonation ==> hasNoAuthTransport
      modifies this, r.decision, r.termination
      ensures View(r) == Concluded(old(View(r)), w, Forward(r))
    {
      if !w.auditPasses {
        return;
      }
      for i := 0 to |w.proxy|
        invariant View(r) == Played(old(View(r)), r, w.proxy[..i])
      {
        assert w.proxy[..i + 1][..i] == w.proxy[..i];
        Step(r, w.proxy[i]);
      }
      assert w.proxy[..|w.proxy|] == w.proxy;
    }

    /** Adding the configured headers, in whatever order their map yields them. */
    method AddConfigured(extra: Extra) returns (out: Extra)
      ensures out == Merged(extra, config.extraHeaders)
    {
      out := extra;
      var rest := config.extraHeaders.Keys;
      while rest != {}
        invariant rest <= config.extraHeaders.Keys
        invariant out.Keys == extra.Keys + (config.extraHeaders.Keys - rest)
        invariant forall k :: k in out ==>
          out[k] == At(extra, k) + if k in rest then [] else At(config.extraHeaders, k)
        decreases |rest|
      {
        var k :| k in rest;
        rest := rest - {k};
        out := out[k := At(out, k) + config.extraHeaders[k]];
      }
    }

    method WithImpersonateRequest(w: World, r: Request)
      requires Built() && Ordered(w, r.headers) && (r.noImpersonation ==> hasNoAuthTransport)
      modifies this, r.decision, r.termination
      ensures View(r) == Concluded(old(View(r)), w, Impersonate(config, w, r))
    {
      if r.noImpersonation {
        Serve(w, r);
        return;
      }
      var clientIP := ResolveClientIP(r.remote, Get(r.headers, FORWARDED_FOR), r.networks);
      if config.disableImpersonation {
        Serve(w, r.(noImpersonation := true));
        return;
      }
      if r.user.None? || r.user.value.name == "" {
        HandleError(r, Some(Plain(NoName)));
        return;
      }
      var user := r.user.value;
      var r', target := r, None;
      if HasImpersonation(r.headers) {
        var outcome, _ := Auth.CheckAuthorizedForImpersonation(
          r.headers, w.order, w.order2, user, config.maxHeaderValues, w.sar);
        match outcome {
          case Refused(refusal) =>
            HandleError(r, Some(FailureOf(refusal)));
            return;
          case NotImpersonating =>
          case Granted(granted, headers) =>
            r', target := r.(headers := headers), Some(granted);
        }
      }
      Forwarding(w, r', user, target, clientIP);
    }

    /** The enrichment of the outbound identity, and the hand-over. */
    method Forwarding(w: World, r: Request, user: User, target: Option<User>, clientIP: string)
      requires !r.noImpersonation
      modifies this, r.decision, r.termination
      ensures View(r) == Concluded(old(View(r)), w, Configure(config, w, r, user, target, clientIP))
    {
      var identity := if target.Some? then target.value else user;
      var groups := identity.groups;
      if ALL_AUTHENTICATED !in groups {
        groups := groups + [ALL_AUTHENTICATED];
      }
      var extra := identity.extra;
      if config.clientIPExtra {
        extra := extra[CLIENT_IP_KEY := At(extra, CLIENT_IP_KEY) + [clientIP]];
      }
      extra := AddConfigured(extra);
      if target.Some? {
        var encoded := "";
        if user.extra != map[] {
          if w.encoded.None? {
            HandleError(r, Some(Failure({}, None)));
            return;
          }
          encoded := w.encoded.value;
        }
        extra := AddOriginal(extra, user, encoded);
      }
      var conf := ImpersonationConfig(identity.name, identity.uid, groups, extra);
      Serve(w, r.(
        impersonation := Some(Impersonation(conf, user, target)),
        user := if target.Some? then target else r.user));
    }

    method AddOriginal(extra: Extra, user: User, encoded: string) returns (out: Extra)
      ensures out == WithOriginal(extra, user, encoded)
    {
      out := extra[ORIGINAL_USER := [user.name]];
      if |user.groups| > 0 {
        out := out[ORIGINAL_GROUPS := user.groups];
      }
      if user.uid != "" {
        out := out[ORIGINAL_UID := [user.uid]];
      }
      if user.extra != map[] {
        out := out[ORIGINAL_EXTRA := [encoded]];
      }
    }

    method WithTokenReview(w: World, r: Request)
      requires Built() && Ordered(w, r.headers)
      modifies this, r.decision, r.termination
      ensures View(r) == Concluded(old(View(r)), w, Passthrough(config, w, r))
    {
      if !config.tokenReview {
        HandleError(r, Some(Plain(Unauthorized)));
        return;
      }
      if !w.bearerFound || !w.tokenAccepted {
        HandleError(r, Some(Plain(Unauthorized)));
        return;
      }
      WithImpersonateRequest(w, r.(authMethod := "tokenreview", noImpersonation := true));
    }

    method WithAuthenticateRequest(w: World, r: Request)
      requires Built() && Ordered(w, r.headers) && !r.noImpersonation
      modifies this, r.decision, r.termination
      ensures View(r) == Concluded(old(View(r)), w, Authenticate(config, w, r))
    {
      match w.authentication {
        case Rejected => WithTokenReview(w, r);
        case Anonymous => HandleError(r, Some(Plain(Unauthorized)));
        case Accepted(user) =>
          var named := r.(authMethod := "oidc", user := Some(user));
          var reserved := CheckReservedIdentity(user, config.allowedReservedGroups);
          if reserved {
            HandleError(named, Some(Plain(ReservedIdentity)));
            return;
          }
          WithImpersonateRequest(w, named);
      }
    }

    /** The chain from the lifecycle filter down. The holders are new to every request; what the filters below
        wrote into them is what the lifecycle filter reads back. */
    method ServeHTTP(w: World, remote: Remote, headers: Header, bearer: string)
      returns (termination: string, reason: string, ghost r: Request)
      requires Built() && Ordered(w, Sanitize(headers, remote, config.networks))
      modifies this
      ensures r == Entering(config, remote, headers, bearer, r.decision, r.termination)
      ensures fresh(r.decision) && fresh(r.termination)
      ensures Trace(events, r.decision.recorded, termination, reason)
        == Concluded(Trace(old(events), false, "", ""), w, Authenticate(config, w, r))
    {
      var holder := new TerminationHolder();
      var decision := new DecisionHolder();
      var inbound := new Inbound(remote, headers);
      inbound.SanitizeForwardHeaders(config.networks);
      r := Entering(config, remote, headers, bearer, decision, holder);
      WithAuthenticateRequest(
        w, Request(remote, config.networks, inbound.headers, "none", None, bearer, false, None, decision, holder));
      termination, reason := holder.termination, holder.reason;
    }
  }

  /** A request as the authentication filter first sees it. */
  function Entering(
    c: Config, remote: Remote, headers: Header, bearer: string,
    decision: DecisionHolder, holder: TerminationHolder): Request
  {
    Request(
      remote, c.networks, Sanitize(headers, remote, c.networks), "none", None, bearer, false, None, decision, holder)
  }
}
