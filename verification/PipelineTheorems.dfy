/** What every request leaves behind, whatever the authenticator, the reviewers and the reverse proxy do. */
module PipelineTheorems {
  import opened Strings
  import opened Headers
  import opened ReviewSpec
  import opened Errors
  import opened ErrorHandler
  import Auth = Authorizer
  import Laws = AuthorizerLaws
  import opened Pipeline

  const FRESH := Trace([], false, "", "")

  /** The trace of one request, on a log of its own. */
  function Left(c: Config, w: World, r: Request): Trace
    requires Ordered(w, r.headers)
  {
    Concluded(FRESH, w, Authenticate(c, w, r))
  }

  function After(before: seq<Event>, t: Trace): Trace {
    t.(events := before + t.events)
  }

  lemma HandledShifts(before: seq<Event>, t: Trace, r: Request, error: Option<Failure>)
    ensures Handled(After(before, t), r, error) == After(before, Handled(t, r, error))
  {
    if error.Some? {
      var f := error.value;
      match Dispose(f.marks) {
        case Refusal(reason, status) =>
          RecordedShifts(before, t, Denial(r, reason, f));
          assert Denied(After(before, t), r, reason, f) == After(before, Denied(t, r, reason, f));
          if status.Some? {
            var denied := Denied(t, r, reason, f);
            assert before + (denied.events + [Answer(status.value)])
                == (before + denied.events) + [Answer(status.value)];
          }
        case UpstreamFailure(_) =>
          assert before + (t.events + [Answer(502)]) == (before + t.events) + [Answer(502)];
      }
    } else {
      assert before + (t.events + [Answer(500)]) == (before + t.events) + [Answer(500)];
    }
  }

  lemma RecordedShifts(before: seq<Event>, t: Trace, d: Decision)
    ensures Recorded(After(before, t), d) == After(before, Recorded(t, d))
  {
    var more := [AccessRecord(Shown(d)), DecisionCount(d.authMethod, d.allowed, if d.allowed then "" else d.reason)];
    assert before + (t.events + more) == (before + t.events) + more;
  }

  lemma TransportedShifts(before: seq<Event>, t: Trace, r: Request)
    ensures Transported(After(before, t), r) == After(before, Transported(t, r))
  {
    if !r.noImpersonation && r.impersonation.None? {
      HandledShifts(before, t, r, Some(Plain(NoImpersonationConfig)));
    } else {
      RecordedShifts(before, t, Allowance(Outgoing(r)));
      var decided := Recorded(t, Allowance(Outgoing(r)));
      var carrier := if r.noImpersonation then NoAuthTransport else ClientTransport(r.impersonation.value.config);
      var call := UpstreamCall(carrier, Outgoing(r).headers);
      assert before + (decided.events + [call]) == (before + decided.events) + [call];
    }
  }

  lemma {:induction false} PlayedShifts(before: seq<Event>, t: Trace, r: Request, steps: seq<ProxyStep>)
    ensures Played(After(before, t), r, steps) == After(before, Played(t, r, steps))
  {
    if steps != [] {
      var n := |steps| - 1;
      PlayedShifts(before, t, r, steps[..n]);
      match steps[n] {
        case CallTransport(headers) =>
          TransportedShifts(before, Played(t, r, steps[..n]), r.(headers := headers));
        case ReportError(headers, error) =>
          HandledShifts(before, Played(t, r, steps[..n]), r.(headers := headers), error);
      }
    }
  }

  /** On a shared log a request only appends, and what it appends does not depend on what was there. */
  lemma ServingAppends(c: Config, w: World, r: Request, before: seq<Event>)
    requires Ordered(w, r.headers)
    ensures Concluded(Trace(before, false, "", ""), w, Authenticate(c, w, r)) == After(before, Left(c, w, r))
  {
    assert Trace(before, false, "", "") == After(before, FRESH);
    match Authenticate(c, w, r) {
      case Refuse(r', failure) => HandledShifts(before, FRESH, r', Some(failure));
      case Forward(r') => PlayedShifts(before, FRESH, r', w.proxy);
    }
  }

  // ---- How many decisions ----

  function Decisions(events: seq<Event>): nat {
    if events == [] then 0
    else Decisions(events[..|events| - 1]) + if events[|events| - 1].AccessRecord? then 1 else 0
  }

  lemma {:induction false} DecisionsAppend(events: seq<Event>, more: seq<Event>)
    ensures Decisions(events + more) == Decisions(events) + Decisions(more)
  {
    if more == [] {
      assert events + more == events;
    } else {
      DecisionsAppend(events, more[..|more| - 1]);
      assert (events + more)[..|events + more| - 1] == events + more[..|more| - 1];
    }
  }

  predicate Refuses(step: ProxyStep) {
    step.ReportError? && step.error.Some? && Dispose(step.error.value.marks).Refusal?
  }

  predicate Decisive(step: ProxyStep) {
    step.CallTransport? || Refuses(step)
  }

  predicate AnyDecisive(steps: seq<ProxyStep>) {
    exists step :: step in steps && Decisive(step)
  }

  /** The decisions a sequence of steps makes: one a transport call, and one for the first refusal if nothing
      was decided before it. */
  function Expected(recorded: bool, steps: seq<ProxyStep>): nat {
    if steps == [] then 0
    else
      var before, last := steps[..|steps| - 1], steps[|steps| - 1];
      Expected(recorded, before)
      + if last.CallTransport? || (Refuses(last) && !recorded && !AnyDecisive(before)) then 1 else 0
  }

  lemma RecordedCounts(t: Trace, d: Decision)
    ensures Decisions(Recorded(t, d).events) == Decisions(t.events) + 1
  {
    var record := AccessRecord(Shown(d));
    var count := DecisionCount(d.authMethod, d.allowed, if d.allowed then "" else d.reason);
    DecisionsAppend(t.events, [record, count]);
    assert [record, count][..1] == [record] && [record][..0] == [];
    assert Decisions([record]) == 1;
  }

  lemma OtherCounts(events: seq<Event>, e: Event)
    requires !e.AccessRecord?
    ensures Decisions(events + [e]) == Decisions(events)
  {
    assert (events + [e])[..|events|] == events;
  }

  /** The error handler decides at most once: never after a decision, and never for an upstream failure. */
  lemma HandledCounts(t: Trace, r: Request, error: Option<Failure>)
    ensures var t' := Handled(t, r, error);
      var decides := error.Some? && Dispose(error.value.marks).Refusal? && !t.recorded;
      && Decisions(t'.events) == Decisions(t.events) + (if decides then 1 else 0)
      && t'.recorded == (t.recorded || decides)
  {
    if error.None? {
      OtherCounts(t.events, Answer(500));
    } else {
      match Dispose(error.value.marks) {
        case Refusal(reason, status) =>
          RecordedCounts(t, Denial(r, reason, error.value));
          if status.Some? {
            OtherCounts(Denied(t, r, reason, error.value).events, Answer(status.value));
          }
        case UpstreamFailure(_) =>
          OtherCounts(t.events, Answer(502));
      }
    }
  }

  predicate Carried(r: Request) {
    r.noImpersonation || r.impersonation.Some?
  }

  lemma TransportedCounts(t: Trace, r: Request)
    requires Carried(r)
    ensures var t' := Transported(t, r);
      Decisions(t'.events) == Decisions(t.events) + 1 && t'.recorded
  {
    RecordedCounts(t, Allowance(Outgoing(r)));
    var carrier := if r.noImpersonation then NoAuthTransport else ClientTransport(r.impersonation.value.config);
    OtherCounts(Recorded(t, Allowance(Outgoing(r))).events, UpstreamCall(carrier, Outgoing(r).headers));
  }

  lemma {:induction false} PlayedCounts(t: Trace, r: Request, steps: seq<ProxyStep>)
    requires Carried(r)
    ensures var t' := Played(t, r, steps);
      && Decisions(t'.events) == Decisions(t.events) + Expected(t.recorded, steps)
      && t'.recorded == (t.recorded || AnyDecisive(steps))
  {
    if steps != [] {
      var before, last := steps[..|steps| - 1], steps[|steps| - 1];
      assert steps == before + [last];
      PlayedCounts(t, r, before);
      var middle := Played(t, r, before);
      match last {
        case CallTransport(headers) => TransportedCounts(middle, r.(headers := headers));
        case ReportError(headers, error) => HandledCounts(middle, r.(headers := headers), error);
      }
      assert AnyDecisive(steps) <==> AnyDecisive(before) || Decisive(last);
    }
  }

  /** Whether a reverse proxy settles a request once: its first decisive step is followed by no transport
      call. */
  ghost predicate SettlesOnce(steps: seq<ProxyStep>) {
    exists k :: 0 <= k < |steps| && FirstDecisive(steps, k) && NoCallAfter(steps, k)
  }

  ghost predicate FirstDecisive(steps: seq<ProxyStep>, k: nat)
    requires k < |steps|
  {
    Decisive(steps[k]) && forall j :: 0 <= j < k ==> !Decisive(steps[j])
  }

  ghost predicate NoCallAfter(steps: seq<ProxyStep>, k: nat) {
    forall j :: k < j < |steps| ==> !steps[j].CallTransport?
  }

  lemma {:induction false} OneIsSettled(steps: seq<ProxyStep>)
    ensures Expected(false, steps) == 0 <==> !AnyDecisive(steps)
    ensures Expected(false, steps) == 1 <==> SettlesOnce(steps)
  {
    if steps != [] {
      var n := |steps| - 1;
      var before, last := steps[..n], steps[n];
      assert steps == before + [last];
      OneIsSettled(before);
      if AnyDecisive(before) {
        SettledBefore(steps);
      } else if Decisive(last) {
        assert FirstDecisive(steps, n) && NoCallAfter(steps, n);
      }
    }
  }

  lemma SettledBefore(steps: seq<ProxyStep>)
    requires steps != [] && AnyDecisive(steps[..|steps| - 1])
    ensures SettlesOnce(steps) <==> SettlesOnce(steps[..|steps| - 1]) && !steps[|steps| - 1].CallTransport?
  {
    var n := |steps| - 1;
    var before := steps[..n];
    if k :| 0 <= k < |steps| && FirstDecisive(steps, k) && NoCallAfter(steps, k) {
      var step :| step in before && Decisive(step);
      var j :| 0 <= j < n && before[j] == step;
      assert steps[j] == step;
      assert k <= j;
      assert FirstDecisive(before, k) && NoCallAfter(before, k);
    }
    if k :| 0 <= k < n && FirstDecisive(before, k) && NoCallAfter(before, k) && !steps[n].CallTransport? {
      assert steps[k] == before[k];
      assert FirstDecisive(steps, k) && NoCallAfter(steps, k);
    }
  }

  // ---- What the filters admit ----

  /** The questions the authorizer asked about a request. */
  ghost function QuestionsAbout(c: Config, w: World, r: Request, user: User): seq<Auth.Ask>
    requires Ordered(w, r.headers)
  {
    Auth.Check(r.headers, w.order, w.order2, user, c.maxHeaderValues, w.sar).1
  }

  /** Each question asked about the request that failed carries the review sentinel. */
  ghost predicate ReviewErrorsAreMarked(c: Config, w: World, r: Request)
    requires Ordered(w, r.headers)
  {
    w.authentication.Accepted? ==>
      var asked := QuestionsAbout(c, w, r, w.authentication.user);
      forall n :: 0 <= n < |asked| && w.sar(n, asked[n]).Failed? ==> CreateReview in w.sar(n, asked[n]).error
  }

  ghost predicate Enters(c: Config, w: World, r: Request) {
    Ordered(w, r.headers) && r.networks == c.networks && !r.noImpersonation && r.impersonation.None? && r.user.None?
  }

  /** Everything known of an admitted request. */
  ghost predicate Admitted(c: Config, w: World, r: Request, r': Request)
    requires Ordered(w, r.headers)
  {
    && r'.remote == r.remote && r'.networks == r.networks && r'.bearer == r.bearer
    && (r'.noImpersonation <==> r'.impersonation.None?)
    && (r'.noImpersonation ==> r'.headers == r.headers && (PassedThrough(c, w, r') || ImpersonationOff(c, w, r')))
    && (r'.impersonation.Some? ==>
          && w.authentication.Accepted?
          && Guarded(c, w.authentication.user) && r'.impersonation.value.inbound == w.authentication.user
          && Configured(c, w, r, r', w.authentication.user))
  }

  ghost predicate Guarded(c: Config, user: User) {
    && user.name != "" && !(SYSTEM <= user.name)
    && forall g :: g in user.groups && SYSTEM <= g ==> g == ALL_AUTHENTICATED || g in c.allowedReservedGroups
  }

  /** Admitted on the token's own credentials: OIDC refused the token and a token review accepted it. */
  predicate PassedThrough(c: Config, w: World, r': Request) {
    && c.tokenReview && w.authentication.Rejected? && w.bearerFound && w.tokenAccepted
    && r'.user.None? && r'.authMethod == "tokenreview"
  }

  predicate ImpersonationOff(c: Config, w: World, r': Request) {
    && c.disableImpersonation && w.authentication.Accepted?
    && !ReservedIdentityIn(w.authentication.user, c.allowedReservedGroups)
    && r'.user == Some(w.authentication.user) && r'.authMethod == "oidc"
  }

  /** The groups an identity travels with: its own, in their order, and behind them the one every authenticated user
      has, unless it is among them already. */
  ghost predicate CarriesGroups(out: seq<string>, own: seq<string>) {
    && own <= out
    && out[|own|..] == (if "system:authenticated" in own then [] else ["system:authenticated"])
    && forall g :: g in out <==> g in own || g == "system:authenticated"
  }

  ghost predicate Configured(c: Config, w: World, r: Request, r': Request, user: User)
    requires Ordered(w, r.headers) && r'.impersonation.Some?
  {
    var i := r'.impersonation.value;
    var identity := if i.impersonated.Some? then i.impersonated.value else user;
    && i.config.name == identity.name && i.config.uid == identity.uid
    && CarriesGroups(i.config.groups, identity.groups)
    && i.config.extra == OutboundExtra(c, w, identity, user, i.impersonated.Some?, SourceIP(r))
    && (i.impersonated.None? ==> r'.headers == r.headers && !HasImpersonation(r.headers))
    && (i.impersonated.Some? && user.extra != map[] ==> w.encoded.Some?)
    && (i.impersonated.Some? ==>
          Auth.Check(r.headers, w.order, w.order2, user, c.maxHeaderValues, w.sar).0
            == Auth.Granted(i.impersonated.value, r'.headers))
  }

  function OutboundExtra(c: Config, w: World, identity: User, user: User, impersonated: bool, clientIP: string): Extra {
    var enriched := Enriched(c, identity.extra, clientIP);
    if impersonated then WithOriginal(enriched, user, if w.encoded.Some? then w.encoded.value else "") else enriched
  }

  /** What is configured once a request may go on. */
  lemma ConfigureConfigures(c: Config, w: World, r: Request, user: User, target: Option<User>, ip: string)
    requires Configure(c, w, r, user, target, ip).Forward?
    ensures var i := Configure(c, w, r, user, target, ip).request.impersonation;
      var identity := if target.Some? then target.value else user;
      && i.Some? && i.value.inbound == user && i.value.impersonated == target
      && i.value.config.name == identity.name && i.value.config.uid == identity.uid
      && CarriesGroups(i.value.config.groups, identity.groups)
      && i.value.config.extra == OutboundExtra(c, w, identity, user, target.Some?, ip)
  {
  }

  lemma ImpersonateAdmits(c: Config, w: World, r: Request, named: Request, user: User)
    requires Ordered(w, r.headers) && named == r.(authMethod := "oidc", user := Some(user))
    requires !r.noImpersonation && r.impersonation.None?
    requires w.authentication == Accepted(user) && !ReservedIdentityIn(user, c.allowedReservedGroups)
    requires Impersonate(c, w, named).Forward?
    ensures Admitted(c, w, r, Impersonate(c, w, named).request)
  {
    var r' := Impersonate(c, w, named).request;
    if !c.disableImpersonation {
      var target := r'.impersonation.value.impersonated;
      ConfigureConfigures(c, w, named.(headers := r'.headers), user, target, SourceIP(r));
      assert named.user == Some(user) && user.name != "";
      assert Guarded(c, user) by {
        forall g | g in user.groups && SYSTEM <= g
          ensures g == ALL_AUTHENTICATED || g in c.allowedReservedGroups
        {
          assert !Reserved(g, c.allowedReservedGroups);
        }
      }
      if HasImpersonation(r.headers) {
        GrantedOrRefused(c, w, r.headers, user);
      }
    }
  }

  /** With an impersonation header present the authorizer grants a target or refuses. */
  lemma GrantedOrRefused(c: Config, w: World, h: Header, user: User)
    requires Ordered(w, h) && HasImpersonation(h)
    ensures !Authorized(c, w, h, user).NotImpersonating?
  {
  }

  lemma AdmittedFacts(c: Config, w: World, r: Request)
    requires Enters(c, w, r) && Authenticate(c, w, r).Forward?
    ensures Admitted(c, w, r, Authenticate(c, w, r).request)
  {
    if w.authentication.Accepted? {
      var user := w.authentication.user;
      ImpersonateAdmits(c, w, r, r.(authMethod := "oidc", user := Some(user)), user);
    }
  }

  /** A request the filters refuse is refused for a reason the error handler records. */
  lemma RefusedIsRecorded(c: Config, w: World, r: Request)
    requires Enters(c, w, r) && ReviewErrorsAreMarked(c, w, r) && Authenticate(c, w, r).Refuse?
    ensures Dispose(Authenticate(c, w, r).failure.marks).Refusal?
  {
    if w.authentication.Accepted? && !ReservedIdentityIn(w.authentication.user, c.allowedReservedGroups) {
      var user := w.authentication.user;
      if !c.disableImpersonation && user.name != "" && HasImpersonation(r.headers) {
        var out := Authorized(c, w, r.headers, user);
        if out.Refused? {
          RefusalIsRecorded(c, w, r, user);
        }
      }
    }
  }

  lemma RefusalIsRecorded(c: Config, w: World, r: Request, user: User)
    requires Ordered(w, r.headers) && ReviewErrorsAreMarked(c, w, r) && w.authentication == Accepted(user)
    requires HasImpersonation(r.headers) && Authorized(c, w, r.headers, user).Refused?
    ensures Dispose(FailureOf(Authorized(c, w, r.headers, user).refusal).marks).Refusal?
  {
    var refusal := Authorized(c, w, r.headers, user).refusal;
    if refusal.ReviewFailed? {
      var items := Auth.Script(r.headers, w.order);
      assert Auth.FirstRefusal(items, 0, user, w.sar) == Some(refusal);
      Laws.StopsOfTheScript(r.headers, w.order);
      FailureComesFromAQuestion(items, 0, user, w.sar);
      assert QuestionsAbout(c, w, r, user) == Auth.Asked(items, 0, w.sar);
      UpstreamExactlyWhenForeign(refusal.error);
    }
  }

  /** A failed review is the answer to the last question asked. */
  lemma {:induction false} FailureComesFromAQuestion(
    items: seq<Auth.Item>, n: nat, user: User, oracle: Auth.Oracle)
    requires n <= |items| && Auth.FirstRefusal(items, n, user, oracle).Some?
    requires Auth.FirstRefusal(items, n, user, oracle).value.ReviewFailed?
    requires forall item :: item in items && item.Stop? ==> !item.refusal.ReviewFailed?
    ensures var asked := Auth.Asked(items, n, oracle);
      && |asked| > 0
      && oracle(n + |asked| - 1, asked[|asked| - 1])
           == Auth.Failed(Auth.FirstRefusal(items, n, user, oracle).value.error)
    decreases |items| - n
  {
    if n < |items| && items[n].Question? && oracle(n, items[n].ask).Allowed? {
      FailureComesFromAQuestion(items, n + 1, user, oracle);
    }
  }
}
