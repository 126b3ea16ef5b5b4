/** What readiness promises in every interleaving of checks. */
module ReadinessTheorems {
  import opened Strings
  import opened Readiness
  import opened ReadinessRuns
  import opened PendingKeys

  lemma StepGrows(c: Config, s: State, e: Event)
    requires Inv(c, s) && Enabled(s, e)
    ensures s.health.initialized <= Next(c, s, e).health.initialized
    ensures s.health.ready ==> Next(c, s, e).health.ready
    ensures s.health.log <= Next(c, s, e).health.log
  {
    if e.Complete? {
      var probed := s.checks[e.i].toProbe;
      MarkAllInitializes(c, s.health, Newly(probed, e.outcomes));
      MarkAllLogs(c, s.health, Newly(probed, e.outcomes));
    }
  }

  lemma {:induction false} MarkAllLogs(c: Config, h: Health, urls: seq<string>)
    ensures h.log <= MarkAll(c, h, urls).log
    ensures PendingPart(MarkAll(c, h, urls).log) == PendingPart(h.log)
  {
    if urls != [] {
      MarkAllLogs(c, h, urls[..|urls| - 1]);
      var before, url := MarkAll(c, h, urls[..|urls| - 1]), urls[|urls| - 1];
      PendingPartAppend(before.log, IssuerInitialized(url, |before.initialized| + 1, |c.issuers|));
    }
  }

  /** The state only grows: an issuer once initialized stays initialized, readiness once reached stays, and no
      record is taken back. */
  lemma {:induction false} StateOnlyGrows(c: Config, events: seq<Event>, n: nat)
    requires IsRun(c, events) && n <= |events|
    ensures IsRun(c, events[..n])
    ensures var early, late := Reached(c, events[..n]).health, Reached(c, events).health;
      early.initialized <= late.initialized && (early.ready ==> late.ready) && early.log <= late.log
  {
    if n == |events| {
      assert events[..n] == events;
    } else {
      var before := events[..|events| - 1];
      StateOnlyGrows(c, before, n);
      assert before[..n] == events[..n];
      RunKeeps(c, before);
      StepGrows(c, Reached(c, before), events[|events| - 1]);
    }
  }

  /** Ready means serving with every issuer initialized in require-all mode and at least one otherwise; the
      only way to be ready with none is to require all of no issuers. The gauge says the same. */
  lemma ReadyIsEarned(c: Config, events: seq<Event>)
    requires IsRun(c, events)
    ensures var h := Reached(c, events).health;
      && (h.ready ==> Earned(c, h))
      && (h.ready && h.initialized == {} ==> c.requireAll && c.issuers == [])
      && h.readyGauge == h.ready
  {
    RunKeeps(c, events);
    if Reached(c, events).health.ready && c.issuers != [] {
      assert c.issuers[0] in c.issuers;
    }
  }

  /** Whether an answer shows that an issuer's keys were loaded: it was neither that the authenticator is not
      initialized nor a transient failure to reach the issuer. */
  predicate ShowsKeys(o: Outcome) {
    o.Verified? || (!o.saysNotInitialized && !o.transient)
  }

  lemma InitializedBy(c: Config, h: Health, probed: seq<string>, outcomes: seq<Outcome>, u: string)
    requires |probed| == |outcomes|
    ensures u in MarkAll(c, h, Newly(probed, outcomes)).initialized
      <==> (u in h.initialized || exists k :: 0 <= k < |probed| && probed[k] == u && ShowsKeys(outcomes[k]))
  {
    MarkAllInitializes(c, h, Newly(probed, outcomes));
    NewlyAre(probed, outcomes, u);
    forall o: Outcome
      ensures ReachedVerification(o) <==> ShowsKeys(o)
    {
    }
  }

  lemma LatchesExactlyWhen(c: Config, h: Health, pending: seq<PendingIssuer>)
    requires RoundOk(c, pending) && forall p :: p in pending ==> p.url !in h.initialized
    requires h.serving && (pending == [] ==> forall u :: u in c.issuers ==> u in h.initialized)
    ensures Latch(c, h, pending).ready <==> h.ready || Earned(c, h)
    ensures Latch(c, h, pending).initialized == h.initialized && Latch(c, h, pending).serving
  {
    if pending != [] {
      var p := pending[0];
      assert p in pending && p.url in c.issuers && p.url !in h.initialized;
    }
  }

  lemma SettlesExactlyWhen(c: Config, h: Health, probed: seq<string>, outcomes: seq<Outcome>)
    requires |probed| == |outcomes| && Covers(c, h, probed) && h.serving
    ensures var h', marked := Settle(c, h, Newly(probed, outcomes), Pending(probed, outcomes)),
        MarkAll(c, h, Newly(probed, outcomes));
      h'.initialized == marked.initialized && (h'.ready <==> h.ready || Earned(c, h'))
  {
    var marked := MarkAll(c, h, Newly(probed, outcomes));
    var current := Current(Pending(probed, outcomes), marked.initialized);
    MarkAllInitializes(c, h, Newly(probed, outcomes));
    RoundIsCurrent(c, h, probed, outcomes);
    LatchesExactlyWhen(c, Report(c, marked, current), current);
  }

  /** What completing a check does in any run: the issuers it found with their keys loaded are initialized, and no
      others become so; readiness is latched if and only if it was, or the mode's condition now holds. */
  lemma CompletingLatchesExactlyWhen(c: Config, events: seq<Event>, i: nat, outcomes: seq<Outcome>)
    requires IsRun(c, events) && Enabled(Reached(c, events), Complete(i, outcomes))
    ensures var s, h := Reached(c, events), Next(c, Reached(c, events), Complete(i, outcomes)).health;
      var probed := s.checks[i].toProbe;
      && (forall u :: u in h.initialized
            <==> (u in s.health.initialized
                  || exists k :: 0 <= k < |probed| && probed[k] == u && ShowsKeys(outcomes[k])))
      && (h.ready <==> s.health.ready || Earned(c, h))
  {
    RunKeeps(c, events);
    var s := Reached(c, events);
    var probed := s.checks[i].toProbe;
    SettlesExactlyWhen(c, s.health, probed, outcomes);
    forall u
      ensures u in MarkAll(c, s.health, Newly(probed, outcomes)).initialized
        <==> (u in s.health.initialized
              || exists k :: 0 <= k < |probed| && probed[k] == u && ShowsKeys(outcomes[k]))
    {
      InitializedBy(c, s.health, probed, outcomes, u);
    }
  }

  /** The mode's condition, once a check has completed. */
  ghost predicate Due(c: Config, s: State) {
    if c.requireAll then s.rounds != [] && forall u :: u in c.issuers ==> u in s.health.initialized
    else s.health.initialized != {}
  }

  lemma StepStaysDue(c: Config, s: State, e: Event)
    requires Inv(c, s) && Enabled(s, e) && !e.Complete?
    ensures Next(c, s, e).health.ready == s.health.ready && (Due(c, Next(c, s, e)) <==> Due(c, s))
  {
  }

  /** In every run the proxy is ready if and only if some issuer is initialized or, in require-all mode, a check has
      completed and every issuer is. */
  lemma {:induction false} ReadyExactlyWhen(c: Config, events: seq<Event>)
    requires IsRun(c, events)
    ensures Reached(c, events).health.ready <==> Due(c, Reached(c, events))
  {
    if events != [] {
      var before, e := events[..|events| - 1], events[|events| - 1];
      ReadyExactlyWhen(c, before);
      RunKeeps(c, before);
      if e.Complete? {
        CompletedIsDue(c, Reached(c, before), e);
      } else {
        StepStaysDue(c, Reached(c, before), e);
      }
    }
  }

  lemma CompletedIsDue(c: Config, s: State, e: Event)
    requires Inv(c, s) && Enabled(s, e) && e.Complete? && (s.health.ready ==> Due(c, s))
    ensures Next(c, s, e).health.ready <==> Due(c, Next(c, s, e))
  {
    var probed := s.checks[e.i].toProbe;
    SettlesExactlyWhen(c, s.health, probed, e.outcomes);
    MarkAllInitializes(c, s.health, Newly(probed, e.outcomes));
  }

  /** The check an event answers, if it answers one. */
  function Answered(s: State, e: Event): Option<nat> {
    match e
    case Complete(i, _) => Some(i)
    case Arrive => if s.health.serving then None else Some(|s.checks|)
    case _ => None
  }

  /** A check returns nil exactly when readiness is latched as it returns, stale results or not. */
  lemma CheckAnswersTheLatch(c: Config, events: seq<Event>, e: Event)
    requires IsRun(c, events) && Enabled(Reached(c, events), e)
    requires Answered(Reached(c, events), e).Some?
    ensures var s, i := Next(c, Reached(c, events), e), Answered(Reached(c, events), e).value;
      && i < |s.checks| && (s.checks[i].Refused? || s.checks[i].Done?)
      && (s.checks[i] == Done(true) <==> s.health.ready)
  {
    RunKeeps(c, events);
  }

  /** The record order every run keeps: at most one initialized record an issuer, exactly for the initialized
      ones; no pending record after it; ready announced once, exactly when it is; ready counts never fall and
      never pass the total. */
  lemma RecordsAreOrdered(c: Config, events: seq<Event>)
    requires IsRun(c, events)
    ensures var h := Reached(c, events).health;
      && (forall i, j :: 0 <= i < j < |h.log| ==> h.log[i].ready <= h.log[j].ready)
      && (forall i :: 0 <= i < |h.log| ==> h.log[i].ready <= h.log[i].total == |c.issuers|)
      && (forall i, j :: 0 <= i < j < |h.log| && h.log[i].IssuerInitialized? && !h.log[j].ProxyReady? ==>
            h.log[i].url != h.log[j].url)
      && (forall u :: u in h.initialized <==> exists r :: r in h.log && r.IssuerInitialized? && r.url == u)
      && (forall i, j :: 0 <= i < j < |h.log| ==> !(h.log[i].ProxyReady? && h.log[j].ProxyReady?))
      && (h.ready <==> exists r :: r in h.log && r.ProxyReady?)
  {
    RunKeeps(c, events);
    var h := Reached(c, events).health;
    InitializedAreFew(h.initialized, c.issuers);
    forall i | 0 <= i < |h.log|
      ensures h.log[i].ready <= h.log[i].total == |c.issuers|
    {
      assert h.log[i] in h.log;
    }
    forall i, j | 0 <= i < j < |h.log|
      ensures MayFollow(h.log[i], h.log[j])
    {
    }
    forall r | r in h.log
      ensures Supported(c, h, r)
    {
    }
  }

  lemma {:induction false} InitializedAreFew(initialized: set<string>, issuers: seq<string>)
    requires forall u :: u in initialized ==> u in issuers
    ensures |initialized| <= |issuers|
  {
    if issuers == [] {
      assert initialized == {};
    } else {
      var last := issuers[|issuers| - 1];
      InitializedAreFew(initialized - {last}, issuers[..|issuers| - 1]);
      assert |initialized| <= |initialized - {last}| + 1;
    }
  }

  // ---- Pending records ----

  function PendingPart(log: seq<Record>): seq<Record> {
    if log == [] then []
    else PendingPart(log[..|log| - 1]) + if log[|log| - 1].IssuerPending? then [log[|log| - 1]] else []
  }

  lemma PendingPartAppend(log: seq<Record>, r: Record)
    ensures PendingPart(log + [r]) == PendingPart(log) + if r.IssuerPending? then [r] else []
  {
    assert (log + [r])[..|log|] == log;
  }

  lemma SplitLast(log: seq<Record>, more: seq<Record>)
    requires more != []
    ensures log + more == (log + more[..|more| - 1]) + [more[|more| - 1]]
  {
  }

  lemma {:induction false} PendingPartOf(log: seq<Record>, more: seq<Record>)
    requires forall r :: r in more ==> r.IssuerPending?
    ensures PendingPart(log + more) == PendingPart(log) + more
  {
    if more == [] {
      assert log + more == log;
    } else {
      var n := |more| - 1;
      PendingPartOf(log, more[..n]);
      SplitLast(log, more);
      PendingPartAppend(log + more[..n], more[n]);
    }
  }

  /** Whatever the URLs, a round writes pending records exactly when its key differs from that of the previously
      recorded round, and then they are its pending list. */
  lemma PendingIsReportedOnKeyChange(c: Config, events: seq<Event>, e: Event)
    requires IsRun(c, events) && Enabled(Reached(c, events), e)
    ensures var s := Reached(c, events);
      var s' := Next(c, s, e);
      PendingPart(s'.health.log) == PendingPart(s.health.log)
        + if e.Complete? && PendingKey(LastRound(s')) != PendingKey(LastRound(s))
          then PendingRecords(LastRound(s'), |s'.health.initialized|, |c.issuers|) else []
  {
    var s := Reached(c, events);
    RunKeeps(c, events);
    if e.Complete? {
      var probed := s.checks[e.i].toProbe;
      var marked := MarkAll(c, s.health, Newly(probed, e.outcomes));
      var round := Round(c, s, e);
      assert LastRound(Next(c, s, e)) == round;
      MarkAllInitializes(c, s.health, Newly(probed, e.outcomes));
      MarkAllLogs(c, s.health, Newly(probed, e.outcomes));
      if PendingKey(round) != s.health.lastPending {
        PendingPartOf(marked.log, PendingRecords(round, |marked.initialized|, |c.issuers|));
      }
      PendingPartAppend(
        Report(c, marked, round).log, ProxyReady(|marked.initialized|, |c.issuers|, c.requireAll));
    }
  }

  /** Pending records are written exactly when the round's pending list differs from the one the previously
      recorded round settled on, and then they are that list: in every run and for every configuration. */
  lemma PendingIsReportedOnChange(c: Config, events: seq<Event>, e: Event)
    requires IsRun(c, events) && Enabled(Reached(c, events), e)
    ensures var s := Reached(c, events);
      var s' := Next(c, s, e);
      PendingPart(s'.health.log) == PendingPart(s.health.log)
        + if e.Complete? && LastRound(s') != LastRound(s)
          then PendingRecords(LastRound(s'), |s'.health.initialized|, |c.issuers|) else []
  {
    PendingIsReportedOnKeyChange(c, events, e);
    if e.Complete? {
      KeyTellsRoundsApart(c, events, e);
      assert LastRound(Next(c, Reached(c, events), e)) == Round(c, Reached(c, events), e);
    }
  }

  // ---- The issuer gauges ----

  /** Whether each issuer's series is 1 exactly when that issuer is initialized. */
  ghost predicate GaugesAreFaithful(c: Config, h: Health) {
    forall u :: u in c.issuers ==>
      c.issuerName(u) in h.issuerGauge && (h.issuerGauge[c.issuerName(u)] <==> u in h.initialized)
  }

  ghost predicate NamesSeparate(c: Config) {
    forall u, v :: u in c.issuers && v in c.issuers && c.issuerName(u) == c.issuerName(v) ==> u == v
  }

  lemma SeparateNamesAreFaithful(c: Config, events: seq<Event>)
    requires IsRun(c, events) && NamesSeparate(c)
    ensures GaugesAreFaithful(c, Reached(c, events).health)
  {
    RunKeeps(c, events);
    var h := Reached(c, events).health;
    forall u | u in c.issuers
      ensures c.issuerName(u) in h.issuerGauge && (h.issuerGauge[c.issuerName(u)] <==> u in h.initialized)
    {
      var n := c.issuerName(u);
      assert n in h.issuerGauge;
      if h.issuerGauge[n] {
        var v :| v in h.initialized && c.issuerName(v) == n;
        assert v == u;
      }
    }
  }

  /** A round in which only u answers. */
  function OnlyAnswers(issuers: seq<string>, u: string): (outcomes: seq<Outcome>)
    ensures |outcomes| == |issuers|
  {
    seq(|issuers|, k requires 0 <= k < |issuers| => if issuers[k] == u then Verified else Failed(true, false))
  }

  /** The run of a single check in which only u answers. */
  function OneCheck(c: Config, u: string): seq<Event> {
    [SetServing, Arrive, TakeSnapshot(0), Complete(0, OnlyAnswers(c.issuers, u))]
  }

  lemma {:induction false} NothingInitialized(issuers: seq<string>)
    ensures Uninitialized(issuers, {}) == issuers
  {
    if issuers != [] {
      NothingInitialized(issuers[..|issuers| - 1]);
    }
  }

  lemma ExtendRun(c: Config, events: seq<Event>, e: Event)
    requires IsRun(c, events) && Enabled(Reached(c, events), e)
    ensures IsRun(c, events + [e]) && Reached(c, events + [e]) == Next(c, Reached(c, events), e)
  {
    assert (events + [e])[..|events|] == events;
  }

  /** Up to its probes, the check has changed nothing but the serving flag. */
  lemma OneCheckProbes(c: Config)
    ensures var run := [SetServing, Arrive, TakeSnapshot(0)];
      && IsRun(c, run)
      && Reached(c, run) == State(Initial(c).(serving := true), [Probing(c.issuers)], [])
  {
    assert IsRun(c, []);
    ExtendRun(c, [], SetServing);
    assert [] + [SetServing] == [SetServing];
    ExtendRun(c, [SetServing], Arrive);
    assert [SetServing] + [Arrive] == [SetServing, Arrive];
    ExtendRun(c, [SetServing, Arrive], TakeSnapshot(0));
    assert [SetServing, Arrive] + [TakeSnapshot(0)] == [SetServing, Arrive, TakeSnapshot(0)];
    NothingInitialized(c.issuers);
  }

  lemma OnlyOneIsNew(issuers: seq<string>, u: string)
    requires u in issuers
    ensures forall v :: v in Newly(issuers, OnlyAnswers(issuers, u)) <==> v == u
  {
    var outcomes := OnlyAnswers(issuers, u);
    forall v
      ensures v in Newly(issuers, outcomes) <==> v == u
    {
      NewlyAre(issuers, outcomes, v);
      if v == u {
        var k :| 0 <= k < |issuers| && issuers[k] == u;
        assert ReachedVerification(outcomes[k]);
      }
    }
  }

  lemma CompletionInitializes(c: Config, s: State, e: Event)
    requires Enabled(s, e) && e.Complete?
    ensures Next(c, s, e).health.initialized
      == s.health.initialized + set u | u in Newly(s.checks[e.i].toProbe, e.outcomes)
  {
    MarkAllInitializes(c, s.health, Newly(s.checks[e.i].toProbe, e.outcomes));
  }

  lemma OneCheckReaches(c: Config, u: string)
    requires u in c.issuers
    ensures IsRun(c, OneCheck(c, u))
    ensures Reached(c, OneCheck(c, u)).health.initialized == {u}
  {
    var run := [SetServing, Arrive, TakeSnapshot(0)];
    var e := Complete(0, OnlyAnswers(c.issuers, u));
    OneCheckProbes(c);
    var s := Reached(c, run);
    assert s == State(Initial(c).(serving := true), [Probing(c.issuers)], []);
    ExtendRun(c, run, e);
    assert run + [e] == OneCheck(c, u);
    CompletionInitializes(c, s, e);
    OnlyOneIsNew(c.issuers, u);
    assert (set v | v in Newly(c.issuers, e.outcomes)) == {u};
  }

  /** The gauges are faithful in every run exactly when no two configured URLs share a name. */
  lemma FaithfulExactlyWithoutClash(c: Config)
    ensures NamesSeparate(c)
      <==> forall events :: IsRun(c, events) ==> GaugesAreFaithful(c, Reached(c, events).health)
  {
    if NamesSeparate(c) {
      forall events | IsRun(c, events)
        ensures GaugesAreFaithful(c, Reached(c, events).health)
      {
        SeparateNamesAreFaithful(c, events);
      }
    } else {
      var u, v :| u in c.issuers && v in c.issuers && c.issuerName(u) == c.issuerName(v) && u != v;
      OneCheckReaches(c, u);
      RunKeeps(c, OneCheck(c, u));
      var h := Reached(c, OneCheck(c, u)).health;
      assert u in h.initialized && v !in h.initialized;
      assert !GaugesAreFaithful(c, h);
    }
  }

  /** The startup check establishes more: names are distinct exactly when they are separate and no URL is
      configured twice. */
  lemma StartupCheckSeparatesNames(c: Config)
    ensures NamesDistinct(c.issuers, c.issuerName)
      <==> NamesSeparate(c) && forall i, j :: 0 <= i < j < |c.issuers| ==> c.issuers[i] != c.issuers[j]
  {
    if NamesDistinct(c.issuers, c.issuerName) {
      forall u, v | u in c.issuers && v in c.issuers && c.issuerName(u) == c.issuerName(v)
        ensures u == v
      {
        var i :| 0 <= i < |c.issuers| && c.issuers[i] == u;
        var j :| 0 <= j < |c.issuers| && c.issuers[j] == v;
      }
    }
  }
}
