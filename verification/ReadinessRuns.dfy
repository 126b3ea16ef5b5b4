/** Any number of readiness checks at once: each takes its snapshot, probes without the lock, and comes back
    with results that other checks may have overtaken. */
module ReadinessRuns {
  import opened Readiness

  datatype Check = Refused | Admitted | Probing(toProbe: seq<string>) | Done(ok: bool)

  /** The shared state, every check so far, and the pending list each completed round settled on. */
  datatype State = State(health: Health, checks: seq<Check>, rounds: seq<seq<PendingIssuer>>)

  datatype Event =
    | SetServing
    | Arrive
    | TakeSnapshot(i: nat)
    | Complete(i: nat, outcomes: seq<Outcome>)

  predicate Enabled(s: State, e: Event) {
    match e
    case SetServing => true
    case Arrive => true
    case TakeSnapshot(i) => i < |s.checks| && s.checks[i].Admitted?
    case Complete(i, outcomes) =>
      i < |s.checks| && s.checks[i].Probing? && |outcomes| == |s.checks[i].toProbe|
  }

  /** The pending list a completing check settles on. */
  function Round(c: Config, s: State, e: Event): seq<PendingIssuer>
    requires Enabled(s, e) && e.Complete?
  {
    var probed := s.checks[e.i].toProbe;
    Current(Pending(probed, e.outcomes), MarkAll(c, s.health, Newly(probed, e.outcomes)).initialized)
  }

  function Next(c: Config, s: State, e: Event): State
    requires Enabled(s, e)
  {
    match e
    case SetServing => s.(health := s.health.(serving := true))
    case Arrive => s.(checks := s.checks + [if s.health.serving then Admitted else Refused])
    case TakeSnapshot(i) =>
      s.(checks := s.checks[i := Probing(Uninitialized(c.issuers, s.health.initialized))])
    case Complete(i, outcomes) =>
      var probed := s.checks[i].toProbe;
      var health := Settle(c, s.health, Newly(probed, outcomes), Pending(probed, outcomes));
      State(health, s.checks[i := Done(health.ready)], s.rounds + [Round(c, s, e)])
  }

  ghost predicate IsRun(c: Config, events: seq<Event>)
    decreases |events|, 0
  {
    events == [] || (IsRun(c, events[..|events| - 1])
                     && Enabled(Reached(c, events[..|events| - 1]), events[|events| - 1]))
  }

  ghost function Reached(c: Config, events: seq<Event>): State
    requires IsRun(c, events)
    decreases |events|, 1
  {
    if events == [] then State(Initial(c), [], [])
    else Next(c, Reached(c, events[..|events| - 1]), events[|events| - 1])
  }

  // ---- The invariant ----

  /** What readiness promises in each mode. */
  ghost predicate Earned(c: Config, h: Health) {
    h.serving && if c.requireAll then (forall u :: u in c.issuers ==> u in h.initialized) else h.initialized != {}
  }

  /** What may stand after a record: ready counts never fall, nothing about an issuer follows its initialized
      record, and readiness is announced once. */
  predicate MayFollow(a: Record, b: Record) {
    && a.ready <= b.ready
    && (a.IssuerInitialized? && !b.ProxyReady? ==> a.url != b.url)
    && !(a.ProxyReady? && b.ProxyReady?)
  }

  predicate Supported(c: Config, h: Health, r: Record) {
    && r.ready <= |h.initialized| && r.total == |c.issuers|
    && (r.IssuerInitialized? ==> r.url in h.initialized)
    && (r.ProxyReady? ==> h.ready)
  }

  ghost predicate WellLogged(c: Config, h: Health) {
    && (forall i, j :: 0 <= i < j < |h.log| ==> MayFollow(h.log[i], h.log[j]))
    && (forall r :: r in h.log ==> Supported(c, h, r))
    && (forall u :: u in h.initialized ==> exists r :: r in h.log && r.IssuerInitialized? && r.url == u)
    && (h.ready ==> exists r :: r in h.log && r.ProxyReady?)
  }

  ghost predicate Published(c: Config, h: Health) {
    && h.readyGauge == h.ready
    && (forall n :: n in h.issuerGauge <==> exists u :: u in c.issuers && c.issuerName(u) == n)
    && (forall n :: n in h.issuerGauge ==>
          (h.issuerGauge[n] <==> exists u :: u in h.initialized && c.issuerName(u) == n))
  }

  ghost predicate Sound(c: Config, h: Health) {
    && (forall u :: u in h.initialized ==> u in c.issuers)
    && (h.ready ==> Earned(c, h))
    && WellLogged(c, h)
    && Published(c, h)
  }

  ghost predicate Covers(c: Config, h: Health, probed: seq<string>) {
    && (forall u :: u in probed ==> u in c.issuers)
    && (forall u :: u in c.issuers ==> u in probed || u in h.initialized)
  }

  ghost predicate Inv(c: Config, s: State) {
    && Sound(c, s.health)
    && (forall k :: 0 <= k < |s.checks| && !s.checks[k].Refused? ==> s.health.serving)
    && (forall k :: 0 <= k < |s.checks| && s.checks[k].Probing? ==> Covers(c, s.health, s.checks[k].toProbe))
    && s.health.lastPending == PendingKey(LastRound(s))
    && RoundOk(c, LastRound(s))
  }

  function LastRound(s: State): seq<PendingIssuer> {
    if s.rounds == [] then [] else s.rounds[|s.rounds| - 1]
  }

  ghost predicate RoundOk(c: Config, pending: seq<PendingIssuer>) {
    forall p :: p in pending ==> p.url in c.issuers && IsPendingReason(p.reason)
  }

  // ---- What the functions of a round produce ----

  lemma {:induction false} UninitializedAre(issuers: seq<string>, initialized: set<string>, u: string)
    ensures u in Uninitialized(issuers, initialized) <==> u in issuers && u !in initialized
  {
    if issuers != [] {
      UninitializedAre(issuers[..|issuers| - 1], initialized, u);
      assert issuers == issuers[..|issuers| - 1] + [issuers[|issuers| - 1]];
    }
  }

  lemma {:induction false} NewlyAre(probed: seq<string>, outcomes: seq<Outcome>, u: string)
    requires |probed| == |outcomes|
    ensures u in Newly(probed, outcomes)
      <==> exists k :: 0 <= k < |probed| && probed[k] == u && ReachedVerification(outcomes[k])
  {
    if probed != [] {
      var n := |probed| - 1;
      NewlyAre(probed[..n], outcomes[..n], u);
      if k :| 0 <= k < |probed| && probed[k] == u && ReachedVerification(outcomes[k]) {
        assert k < n ==> probed[..n][k] == u && outcomes[..n][k] == outcomes[k];
      }
      if u in Newly(probed[..n], outcomes[..n]) {
        var k :| 0 <= k < n && probed[..n][k] == u && ReachedVerification(outcomes[..n][k]);
        assert probed[k] == u && ReachedVerification(outcomes[k]);
      }
    }
  }

  /** Every probed issuer comes out of a round initialized or pending, and pending ones carry a reason. */
  lemma {:induction false} RoundSplits(probed: seq<string>, outcomes: seq<Outcome>)
    requires |probed| == |outcomes|
    ensures forall u :: u in Newly(probed, outcomes) ==> u in probed
    ensures forall p :: p in Pending(probed, outcomes) ==> p.url in probed && IsPendingReason(p.reason)
    ensures forall u :: u in probed ==>
      u in Newly(probed, outcomes) || exists p :: p in Pending(probed, outcomes) && p.url == u
  {
    if probed != [] {
      var n := |probed| - 1;
      RoundSplits(probed[..n], outcomes[..n]);
      assert probed == probed[..n] + [probed[n]];
      var last := PendingIssuer(probed[n], if outcomes[n].Failed? then PendingReason(outcomes[n]) else ERROR);
      assert !ReachedVerification(outcomes[n]) ==> last in Pending(probed, outcomes);
      forall u | u in probed
        ensures u in Newly(probed, outcomes) || exists p :: p in Pending(probed, outcomes) && p.url == u
      {
        if u in probed[..n] && u !in Newly(probed[..n], outcomes[..n]) {
          var p :| p in Pending(probed[..n], outcomes[..n]) && p.url == u;
          assert p in Pending(probed, outcomes);
        }
      }
    }
  }

  lemma {:induction false} CurrentAre(pending: seq<PendingIssuer>, initialized: set<string>, p: PendingIssuer)
    ensures p in Current(pending, initialized) <==> p in pending && p.url !in initialized
  {
    if pending != [] {
      CurrentAre(pending[..|pending| - 1], initialized, p);
      assert pending == pending[..|pending| - 1] + [pending[|pending| - 1]];
    }
  }

  lemma {:induction false} MarkAllInitializes(c: Config, h: Health, urls: seq<string>)
    ensures MarkAll(c, h, urls).initialized == h.initialized + set u | u in urls
    ensures MarkAll(c, h, urls).serving == h.serving && MarkAll(c, h, urls).ready == h.ready
    ensures MarkAll(c, h, urls).lastPending == h.lastPending
  {
    if urls != [] {
      MarkAllInitializes(c, h, urls[..|urls| - 1]);
      assert urls == urls[..|urls| - 1] + [urls[|urls| - 1]];
    }
  }

  // ---- The invariant is kept ----

  lemma {:induction false} SeededAre(urls: seq<string>, issuerName: string -> string, n: string)
    ensures n in Seeded(urls, issuerName) <==> exists u :: u in urls && issuerName(u) == n
    ensures n in Seeded(urls, issuerName) ==> !Seeded(urls, issuerName)[n]
  {
    if urls != [] {
      var last := urls[|urls| - 1];
      SeededAre(urls[..|urls| - 1], issuerName, n);
      assert urls == urls[..|urls| - 1] + [last];
      if issuerName(last) == n {
        assert last in urls;
      }
    }
  }

  lemma InitialIsSound(c: Config)
    ensures Sound(c, Initial(c))
  {
    forall n
      ensures n in Initial(c).issuerGauge <==> exists u :: u in c.issuers && c.issuerName(u) == n
      ensures n in Initial(c).issuerGauge ==> !Initial(c).issuerGauge[n]
    {
      SeededAre(c.issuers, c.issuerName, n);
    }
  }

  /** Adding records to a well-ordered log. */
  lemma LogGrows(c: Config, h: Health, h': Health, more: seq<Record>)
    requires WellLogged(c, h) && h'.log == h.log + more
    requires h.initialized <= h'.initialized && |h.initialized| <= |h'.initialized| && (h.ready ==> h'.ready)
    requires forall r :: r in more ==>
      && Supported(c, h', r) && |h.initialized| <= r.ready
      && (!r.ProxyReady? ==> r.url !in h.initialized)
      && (r.ProxyReady? ==> !h.ready)
    requires forall i, j :: 0 <= i < j < |more| ==> MayFollow(more[i], more[j])
    requires forall u :: u in h'.initialized && u !in h.initialized ==>
      exists r :: r in more && r.IssuerInitialized? && r.url == u
    requires h'.ready && !h.ready ==> exists r :: r in more && r.ProxyReady?
    ensures WellLogged(c, h')
  {
    forall i, j | 0 <= i < j < |h'.log|
      ensures MayFollow(h'.log[i], h'.log[j])
    {
      var n := |h.log|;
      if j < n {
        assert h'.log[i] == h.log[i] && h'.log[j] == h.log[j];
      } else if i < n {
        assert h'.log[i] == h.log[i] && h'.log[j] == more[j - n];
        assert Supported(c, h, h.log[i]);
      } else {
        assert h'.log[i] == more[i - n] && h'.log[j] == more[j - n];
      }
    }
    forall r | r in h'.log
      ensures Supported(c, h', r)
    {
      if r in h.log {
        assert Supported(c, h, r);
      }
    }
    forall u | u in h'.initialized
      ensures exists r :: r in h'.log && r.IssuerInitialized? && r.url == u
    {
      if u in h.initialized {
        var r :| r in h.log && r.IssuerInitialized? && r.url == u;
        assert r in h'.log;
      } else {
        var r :| r in more && r.IssuerInitialized? && r.url == u;
        assert r in h'.log;
      }
    }
    if h'.ready {
      if h.ready {
        var r :| r in h.log && r.ProxyReady?;
        assert r in h'.log;
      } else {
        var r :| r in more && r.ProxyReady?;
        assert r in h'.log;
      }
    }
  }

  lemma MarkKeeps(c: Config, h: Health, url: string)
    requires Sound(c, h) && url in c.issuers
    ensures Sound(c, Mark(c, h, url))
  {
    if url !in h.initialized {
      var h' := Mark(c, h, url);
      var r := IssuerInitialized(url, |h.initialized| + 1, |c.issuers|);
      assert |h'.initialized| == |h.initialized| + 1;
      assert r in [r];
      LogGrows(c, h, h', [r]);
      MarkPublishes(c, h, url);
    }
  }

  lemma MarkPublishes(c: Config, h: Health, url: string)
    requires Published(c, h) && url in c.issuers && url !in h.initialized
    ensures Published(c, Mark(c, h, url))
  {
    var h' := Mark(c, h, url);
    var n := c.issuerName(url);
    assert n in h.issuerGauge;
    assert url in h'.initialized;
    forall m | m in h'.issuerGauge
      ensures h'.issuerGauge[m] <==> exists u :: u in h'.initialized && c.issuerName(u) == m
    {
      if m != n {
        if u :| u in h.initialized && c.issuerName(u) == m {
          assert u in h'.initialized;
        }
      }
    }
  }

  lemma {:induction false} MarkAllKeeps(c: Config, h: Health, urls: seq<string>)
    requires Sound(c, h) && forall u :: u in urls ==> u in c.issuers
    ensures Sound(c, MarkAll(c, h, urls))
  {
    if urls != [] {
      MarkAllKeeps(c, h, urls[..|urls| - 1]);
      MarkKeeps(c, MarkAll(c, h, urls[..|urls| - 1]), urls[|urls| - 1]);
    }
  }

  lemma ReportKeeps(c: Config, h: Health, pending: seq<PendingIssuer>)
    requires Sound(c, h) && forall p :: p in pending ==> p.url !in h.initialized
    ensures Sound(c, Report(c, h, pending))
  {
    if PendingKey(pending) != h.lastPending {
      LogGrows(c, h, Report(c, h, pending), PendingRecords(pending, |h.initialized|, |c.issuers|));
    }
  }

  lemma LatchKeeps(c: Config, h: Health, pending: seq<PendingIssuer>)
    requires Sound(c, h) && h.serving
    requires pending == [] ==> forall u :: u in c.issuers ==> u in h.initialized
    ensures Sound(c, Latch(c, h, pending))
  {
    var h' := Latch(c, h, pending);
    if h' != h {
      var r := ProxyReady(|h.initialized|, |c.issuers|, c.requireAll);
      assert r in [r];
      LogGrows(c, h, h', [r]);
    }
  }

  /** What is left pending after a round, and what being left with nothing means. */
  lemma RoundIsCurrent(c: Config, h: Health, probed: seq<string>, outcomes: seq<Outcome>)
    requires |probed| == |outcomes| && Covers(c, h, probed)
    ensures var marked := MarkAll(c, h, Newly(probed, outcomes));
      var current := Current(Pending(probed, outcomes), marked.initialized);
      && RoundOk(c, current)
      && (forall p :: p in current ==> p.url !in marked.initialized)
      && (current == [] ==> forall u :: u in c.issuers ==> u in marked.initialized)
  {
    var newly, pending := Newly(probed, outcomes), Pending(probed, outcomes);
    var marked := MarkAll(c, h, newly);
    var current := Current(pending, marked.initialized);
    RoundSplits(probed, outcomes);
    MarkAllInitializes(c, h, newly);
    forall p
      ensures p in current <==> p in pending && p.url !in marked.initialized
    {
      CurrentAre(pending, marked.initialized, p);
    }
    forall u | current == [] && u in c.issuers
      ensures u in marked.initialized
    {
      if u in probed && u !in newly {
        var p :| p in pending && p.url == u;
        assert p !in current;
      }
    }
  }

  lemma SettleKeeps(c: Config, h: Health, probed: seq<string>, outcomes: seq<Outcome>)
    requires Sound(c, h) && h.serving && |probed| == |outcomes| && Covers(c, h, probed)
    ensures var h' := Settle(c, h, Newly(probed, outcomes), Pending(probed, outcomes));
      && Sound(c, h') && h'.serving && h.initialized <= h'.initialized
      && h'.lastPending == PendingKey(
           Current(Pending(probed, outcomes), MarkAll(c, h, Newly(probed, outcomes)).initialized))
  {
    var newly := Newly(probed, outcomes);
    var marked := MarkAll(c, h, newly);
    var current := Current(Pending(probed, outcomes), marked.initialized);
    RoundSplits(probed, outcomes);
    RoundIsCurrent(c, h, probed, outcomes);
    MarkAllInitializes(c, h, newly);
    MarkAllKeeps(c, h, newly);
    ReportKeeps(c, marked, current);
    LatchKeeps(c, Report(c, marked, current), current);
  }

  lemma SnapshotCovers(c: Config, h: Health)
    ensures Covers(c, h, Uninitialized(c.issuers, h.initialized))
  {
    forall u
      ensures u in Uninitialized(c.issuers, h.initialized) <==> u in c.issuers && u !in h.initialized
    {
      UninitializedAre(c.issuers, h.initialized, u);
    }
  }

  lemma StepKeeps(c: Config, s: State, e: Event)
    requires Inv(c, s) && Enabled(s, e)
    ensures Inv(c, Next(c, s, e))
  {
    match e {
      case SetServing =>
      case Arrive =>
      case TakeSnapshot(i) =>
        SnapshotCovers(c, s.health);
      case Complete(i, outcomes) =>
        var probed := s.checks[i].toProbe;
        SettleKeeps(c, s.health, probed, outcomes);
        RoundIsCurrent(c, s.health, probed, outcomes);
    }
  }

  lemma {:induction false} RunKeeps(c: Config, events: seq<Event>)
    requires IsRun(c, events)
    ensures Inv(c, Reached(c, events))
  {
    if events == [] {
      InitialIsSound(c);
      KeyOfEmpty([]);
    } else {
      RunKeeps(c, events[..|events| - 1]);
      StepKeeps(c, Reached(c, events[..|events| - 1]), events[|events| - 1]);
    }
  }
}
