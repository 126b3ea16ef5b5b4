/** Why the key of a pending list tells consecutive rounds apart, whatever the URLs hold. */
module PendingKeys {
  import opened Readiness
  import opened ReadinessRuns

  function Urls(pending: seq<PendingIssuer>): (urls: seq<string>)
    ensures |urls| == |pending|
  {
    seq(|pending|, i requires 0 <= i < |pending| => pending[i].url)
  }

  ghost predicate WithReasons(pending: seq<PendingIssuer>) {
    forall i :: 0 <= i < |pending| ==> IsPendingReason(pending[i].reason)
  }

  // ---- Counting commas ----

  function Commas(s: string): nat {
    if s == "" then 0 else (if s[0] == ',' then 1 else 0) + Commas(s[1..])
  }

  lemma {:induction false} CommasAdd(s: string, t: string)
    ensures Commas(s + t) == Commas(s) + Commas(t)
  {
    if s == "" {
      assert s + t == t;
    } else {
      CommasAdd(s[1..], t);
      assert (s + t)[1..] == s[1..] + t;
    }
  }

  lemma {:induction false} NoCommas(s: string)
    requires ',' !in s
    ensures Commas(s) == 0
  {
    if s != "" {
      NoCommas(s[1..]);
    }
  }

  /** The commas a list of URLs brings into its key, one to end each part included. */
  function Weight(urls: seq<string>): nat {
    if urls == [] then 0 else Weight(urls[..|urls| - 1]) + Commas(urls[|urls| - 1]) + 1
  }

  lemma {:induction false} WeightFront(urls: seq<string>)
    requires urls != []
    ensures Weight(urls) == Commas(urls[0]) + 1 + Weight(urls[1..])
  {
    var n := |urls| - 1;
    if n > 0 {
      WeightFront(urls[..n]);
      assert urls[..n][1..] == urls[1..][..n - 1];
    }
  }

  function Part(p: PendingIssuer): string {
    p.url + "=" + p.reason
  }

  lemma ReasonsHoldNoComma(reason: string)
    requires IsPendingReason(reason)
    ensures Commas(reason) == 0
  {
    forall i | 0 <= i < |reason|
      ensures reason[i] != ','
    {
      assert reason == NOT_INITIALIZED || reason == TRANSIENT;
    }
    NoCommas(reason);
  }

  lemma PartCommas(p: PendingIssuer)
    requires IsPendingReason(p.reason)
    ensures Commas(Part(p)) == Commas(p.url)
  {
    ReasonsHoldNoComma(p.reason);
    CommasAdd(p.url + "=", p.reason);
    CommasAdd(p.url, "=");
    assert Commas("=") == Commas("="[1..]) == 0;
  }

  /** The key of a list, its first part split off. */
  lemma KeyFront(pending: seq<PendingIssuer>)
    requires pending != []
    ensures PendingKey(pending)
      == if |pending| == 1 then Part(pending[0]) else Part(pending[0]) + "," + PendingKey(pending[1..])
  {
    assert KeyParts(pending)[1..] == KeyParts(pending[1..]);
  }

  lemma {:induction false} KeyWeighs(pending: seq<PendingIssuer>)
    requires pending != [] && WithReasons(pending)
    ensures Commas(PendingKey(pending)) + 1 == Weight(Urls(pending))
  {
    KeyFront(pending);
    PartCommas(pending[0]);
    WeightFront(Urls(pending));
    assert Urls(pending)[1..] == Urls(pending[1..]);
    if |pending| > 1 {
      KeyWeighs(pending[1..]);
      CommasAdd(Part(pending[0]) + ",", PendingKey(pending[1..]));
      CommasAdd(Part(pending[0]), ",");
      assert Commas(",") == 1;
    }
  }

  lemma WeightAppend(urls: seq<string>, url: string)
    ensures Weight(urls + [url]) == Weight(urls) + Commas(url) + 1
  {
    assert (urls + [url])[..|urls|] == urls;
  }

  /** Dropping an issuer drops weight. */
  lemma {:induction false} FilterWeighs(urls: seq<string>, initialized: set<string>)
    ensures Weight(Uninitialized(urls, initialized)) <= Weight(urls)
    ensures Weight(Uninitialized(urls, initialized)) == Weight(urls) ==> Uninitialized(urls, initialized) == urls
  {
    if urls != [] {
      var n := |urls| - 1;
      FilterWeighs(urls[..n], initialized);
      assert urls == urls[..n] + [urls[n]];
      if urls[n] in initialized {
        assert Uninitialized(urls, initialized) == Uninitialized(urls[..n], initialized);
      } else {
        WeightAppend(Uninitialized(urls[..n], initialized), urls[n]);
      }
    }
  }

  // ---- Lists over the same URLs ----

  lemma ReasonsDiffer(url: string, x: string, y: string)
    ensures url + "=" + NOT_INITIALIZED + x != url + "=" + TRANSIENT + y
  {
    var s, t := url + "=" + NOT_INITIALIZED + x, url + "=" + TRANSIENT + y;
    assert s[|url| + 1] == NOT_INITIALIZED[0] == 'n';
    assert t[|url| + 1] == TRANSIENT[0] == 't';
  }

  lemma SameReason(a: PendingIssuer, b: PendingIssuer, x: string, y: string)
    requires a.url == b.url && IsPendingReason(a.reason) && IsPendingReason(b.reason)
    requires Part(a) + x == Part(b) + y
    ensures a == b && x == y
  {
    ReasonsDiffer(a.url, x, y);
    ReasonsDiffer(a.url, y, x);
    assert (Part(a) + x)[|Part(a)|..] == x && (Part(b) + y)[|Part(b)|..] == y;
  }

  /** The front part and what follows it, an empty rest for a lone part. */
  function Following(pending: seq<PendingIssuer>): string
    requires pending != []
  {
    if |pending| == 1 then "" else "," + PendingKey(pending[1..])
  }

  lemma KeyIsPartThenRest(pending: seq<PendingIssuer>)
    requires pending != []
    ensures PendingKey(pending) == Part(pending[0]) + Following(pending)
  {
    KeyFront(pending);
  }

  lemma FollowingHoldsRest(a: seq<PendingIssuer>, b: seq<PendingIssuer>)
    requires a != [] && |a| == |b| && Following(a) == Following(b)
    ensures PendingKey(a[1..]) == PendingKey(b[1..])
  {
    if |a| == 1 {
      assert a[1..] == [] && b[1..] == [];
    } else {
      assert Following(a)[1..] == PendingKey(a[1..]) && Following(b)[1..] == PendingKey(b[1..]);
    }
  }

  lemma SameFront(a: seq<PendingIssuer>, b: seq<PendingIssuer>)
    requires a != [] && |a| == |b| && a[0].url == b[0].url && PendingKey(a) == PendingKey(b)
    requires IsPendingReason(a[0].reason) && IsPendingReason(b[0].reason)
    ensures a[0] == b[0] && PendingKey(a[1..]) == PendingKey(b[1..])
  {
    KeyIsPartThenRest(a);
    KeyIsPartThenRest(b);
    SameReason(a[0], b[0], Following(a), Following(b));
    FollowingHoldsRest(a, b);
  }

  lemma {:induction false} SameUrlsSameKey(a: seq<PendingIssuer>, b: seq<PendingIssuer>)
    requires |a| == |b| && forall i :: 0 <= i < |a| ==> a[i].url == b[i].url
    requires WithReasons(a) && WithReasons(b) && PendingKey(a) == PendingKey(b)
    ensures a == b
  {
    if a != [] {
      SameFront(a, b);
      SameUrlsSameKey(a[1..], b[1..]);
      assert a == [a[0]] + a[1..] && b == [b[0]] + b[1..];
    }
  }

  /** A list, and a later one from which issuers have only gone: equal keys mean equal lists. */
  lemma NestedKeysAreInjective(before: seq<PendingIssuer>, after: seq<PendingIssuer>, initialized: set<string>)
    requires Urls(after) == Uninitialized(Urls(before), initialized)
    requires WithReasons(before) && WithReasons(after) && PendingKey(before) == PendingKey(after)
    ensures before == after
  {
    KeyOfEmpty(before);
    KeyOfEmpty(after);
    if before != [] {
      KeyWeighs(before);
      KeyWeighs(after);
      FilterWeighs(Urls(before), initialized);
      assert Urls(before) == Urls(after);
      forall i | 0 <= i < |before|
        ensures |before| == |after| && before[i].url == after[i].url
      {
        assert |Urls(before)| == |Urls(after)| && Urls(before)[i] == Urls(after)[i];
      }
      SameUrlsSameKey(before, after);
    }
  }

  // ---- What the rounds list ----

  /** The last round lists exactly the issuers not yet initialized, and every check probes those that were not
      when it took its snapshot. */
  ghost predicate Nested(c: Config, s: State) {
    && (s.rounds != [] ==> Urls(LastRound(s)) == Uninitialized(c.issuers, s.health.initialized))
    && (forall k :: 0 <= k < |s.checks| && s.checks[k].Probing? ==> SnapshotOf(c, s.health, s.checks[k].toProbe))
  }

  ghost predicate SnapshotOf(c: Config, h: Health, probed: seq<string>) {
    exists early: set<string> :: early <= h.initialized && probed == Uninitialized(c.issuers, early)
  }

  lemma CurrentAppend(pending: seq<PendingIssuer>, p: PendingIssuer, initialized: set<string>)
    ensures Current(pending + [p], initialized)
      == Current(pending, initialized) + if p.url in initialized then [] else [p]
  {
    assert (pending + [p])[..|pending|] == pending;
  }

  lemma {:induction false} RoundLists(probed: seq<string>, outcomes: seq<Outcome>, initialized: set<string>)
    requires |probed| == |outcomes| && forall u :: u in Newly(probed, outcomes) ==> u in initialized
    ensures Urls(Current(Pending(probed, outcomes), initialized)) == Uninitialized(probed, initialized)
  {
    if probed != [] {
      var n := |probed| - 1;
      var front := Pending(probed[..n], outcomes[..n]);
      RoundLists(probed[..n], outcomes[..n], initialized);
      if ReachedVerification(outcomes[n]) {
        assert probed[n] in Newly(probed, outcomes);
        assert Pending(probed, outcomes) == front;
      } else {
        var last := PendingIssuer(probed[n], PendingReason(outcomes[n]));
        CurrentAppend(front, last, initialized);
        UrlsAppend(Current(front, initialized), last);
      }
    }
  }

  lemma UrlsAppend(pending: seq<PendingIssuer>, p: PendingIssuer)
    ensures Urls(pending + [p]) == Urls(pending) + [p.url]
  {
  }

  lemma FilterAppend(issuers: seq<string>, u: string, initialized: set<string>)
    ensures Uninitialized(issuers + [u], initialized)
      == Uninitialized(issuers, initialized) + if u in initialized then [] else [u]
  {
    assert (issuers + [u])[..|issuers|] == issuers;
  }

  lemma {:induction false} FilterTwice(issuers: seq<string>, early: set<string>, late: set<string>)
    requires early <= late
    ensures Uninitialized(Uninitialized(issuers, early), late) == Uninitialized(issuers, late)
  {
    if issuers != [] {
      var n := |issuers| - 1;
      FilterTwice(issuers[..n], early, late);
      if issuers[n] in early {
        assert Uninitialized(issuers, early) == Uninitialized(issuers[..n], early);
      } else {
        FilterAppend(Uninitialized(issuers[..n], early), issuers[n], late);
      }
    }
  }

  /** A completed round lists the issuers still uninitialized. */
  lemma CompletedRoundLists(c: Config, s: State, e: Event)
    requires Enabled(s, e) && e.Complete? && SnapshotOf(c, s.health, s.checks[e.i].toProbe)
    ensures Urls(Round(c, s, e)) == Uninitialized(c.issuers, Next(c, s, e).health.initialized)
    ensures s.health.initialized <= Next(c, s, e).health.initialized
  {
    var probed := s.checks[e.i].toProbe;
    var early: set<string> :| early <= s.health.initialized && probed == Uninitialized(c.issuers, early);
    var marked := MarkAll(c, s.health, Newly(probed, e.outcomes));
    MarkAllInitializes(c, s.health, Newly(probed, e.outcomes));
    RoundLists(probed, e.outcomes, marked.initialized);
    FilterTwice(c.issuers, early, marked.initialized);
  }

  lemma SnapshotStays(c: Config, h: Health, h': Health, probed: seq<string>)
    requires SnapshotOf(c, h, probed) && h.initialized <= h'.initialized
    ensures SnapshotOf(c, h', probed)
  {
    var early: set<string> :| early <= h.initialized && probed == Uninitialized(c.issuers, early);
    assert early <= h'.initialized;
  }

  lemma StepNests(c: Config, s: State, e: Event)
    requires Nested(c, s) && Enabled(s, e)
    ensures Nested(c, Next(c, s, e))
  {
    var s' := Next(c, s, e);
    if e.TakeSnapshot? {
      assert SnapshotOf(c, s'.health, s'.checks[e.i].toProbe);
    }
    if e.Complete? {
      CompletedRoundLists(c, s, e);
    }
    forall k | 0 <= k < |s'.checks| && s'.checks[k].Probing?
      ensures SnapshotOf(c, s'.health, s'.checks[k].toProbe)
    {
      if k < |s.checks| && s'.checks[k] == s.checks[k] {
        SnapshotStays(c, s.health, s'.health, s.checks[k].toProbe);
      }
    }
  }

  lemma {:induction false} RunNests(c: Config, events: seq<Event>)
    requires IsRun(c, events)
    ensures Nested(c, Reached(c, events))
  {
    if events != [] {
      RunNests(c, events[..|events| - 1]);
      StepNests(c, Reached(c, events[..|events| - 1]), events[|events| - 1]);
    }
  }

  /** So the key tells a completed round from the one recorded before it, in every run and for every
      configuration. */
  lemma KeyTellsRoundsApart(c: Config, events: seq<Event>, e: Event)
    requires IsRun(c, events) && Enabled(Reached(c, events), e) && e.Complete?
    ensures var before, after := LastRound(Reached(c, events)), Round(c, Reached(c, events), e);
      PendingKey(before) == PendingKey(after) <==> before == after
  {
    var s := Reached(c, events);
    var s' := Next(c, s, e);
    var before, after := LastRound(s), Round(c, s, e);
    RunKeeps(c, events);
    StepKeeps(c, s, e);
    RunNests(c, events);
    CompletedRoundLists(c, s, e);
    RoundHasReasons(c, before);
    RoundHasReasons(c, after);
    if PendingKey(before) == PendingKey(after) {
      if s.rounds == [] {
        KeyOfEmpty(before);
        KeyOfEmpty(after);
      } else {
        FilterTwice(c.issuers, s.health.initialized, s'.health.initialized);
        NestedKeysAreInjective(before, after, s'.health.initialized);
      }
    }
  }

  lemma RoundHasReasons(c: Config, round: seq<PendingIssuer>)
    requires RoundOk(c, round)
    ensures WithReasons(round)
  {
    forall i | 0 <= i < |round|
      ensures IsPendingReason(round[i].reason)
    {
      assert round[i] in round;
    }
  }
}
