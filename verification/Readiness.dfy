/** The readiness check: two critical sections over the shared state, with the issuer probes between them. */
module Readiness {
  import opened Strings

  /** How AuthenticateToken answered the fake token. */
  datatype Outcome = Verified | Failed(saysNotInitialized: bool, transient: bool)

  const NOT_INITIALIZED := "not_initialized"
  const TRANSIENT := "transient"
  const ERROR := "error"

  function PendingReason(o: Outcome): string
    requires o.Failed?
  {
    if o.saysNotInitialized then NOT_INITIALIZED else if o.transient then TRANSIENT else ERROR
  }

  /** Whether the answer shows that the issuer's keys have been fetched. */
  predicate ReachedVerification(o: Outcome) {
    o.Verified? || PendingReason(o) == ERROR
  }

  datatype PendingIssuer = PendingIssuer(url: string, reason: string)

  datatype Record =
    | IssuerInitialized(url: string, ready: nat, total: nat)
    | IssuerPending(url: string, reason: string, ready: nat, total: nat)
    | ProxyReady(ready: nat, total: nat, requireAll: bool)

  /** The configuration: issuer URLs in order, the mode, and the name a URL is published under. */
  datatype Config = Config(issuers: seq<string>, requireAll: bool, issuerName: string -> string)

  datatype Health = Health(
    serving: bool, ready: bool, initialized: set<string>, lastPending: string,
    log: seq<Record>, issuerGauge: map<string, bool>, readyGauge: bool)

  /** One series per configured issuer, at zero. */
  function Seeded(urls: seq<string>, issuerName: string -> string): map<string, bool> {
    if urls == [] then map[] else Seeded(urls[..|urls| - 1], issuerName)[issuerName(urls[|urls| - 1]) := false]
  }

  /** The state NewServer and WithMetrics leave. */
  function Initial(c: Config): Health {
    Health(false, false, {}, "", [], Seeded(c.issuers, c.issuerName), false)
  }

  // ---- Probing ----

  /** The issuers still needing a probe. */
  function Uninitialized(issuers: seq<string>, initialized: set<string>): seq<string> {
    if issuers == [] then []
    else
      var last := issuers[|issuers| - 1];
      Uninitialized(issuers[..|issuers| - 1], initialized) + if last in initialized then [] else [last]
  }

  /** The issuers a round found initialized. */
  function Newly(probed: seq<string>, outcomes: seq<Outcome>): seq<string>
    requires |probed| == |outcomes|
  {
    if probed == [] then []
    else
      var n := |probed| - 1;
      Newly(probed[..n], outcomes[..n]) + if ReachedVerification(outcomes[n]) then [probed[n]] else []
  }

  /** The issuers a round left pending, and why. */
  function Pending(probed: seq<string>, outcomes: seq<Outcome>): seq<PendingIssuer>
    requires |probed| == |outcomes|
  {
    if probed == [] then []
    else
      var n := |probed| - 1;
      Pending(probed[..n], outcomes[..n])
      + if ReachedVerification(outcomes[n]) then [] else [PendingIssuer(probed[n], PendingReason(outcomes[n]))]
  }

  // ---- Recording a round ----

  function Mark(c: Config, h: Health, url: string): Health {
    if url in h.initialized then h
    else h.(
      initialized := h.initialized + {url},
      issuerGauge := h.issuerGauge[c.issuerName(url) := true],
      log := h.log + [IssuerInitialized(url, |h.initialized| + 1, |c.issuers|)])
  }

  function MarkAll(c: Config, h: Health, urls: seq<string>): Health {
    if urls == [] then h else Mark(c, MarkAll(c, h, urls[..|urls| - 1]), urls[|urls| - 1])
  }

  /** The pending results no concurrent check has made stale. */
  function Current(pending: seq<PendingIssuer>, initialized: set<string>): seq<PendingIssuer> {
    if pending == [] then []
    else
      var last := pending[|pending| - 1];
      Current(pending[..|pending| - 1], initialized) + if last.url in initialized then [] else [last]
  }

  function KeyParts(pending: seq<PendingIssuer>): (parts: seq<string>)
    ensures |parts| == |pending|
  {
    seq(|pending|, i requires 0 <= i < |pending| => pending[i].url + "=" + pending[i].reason)
  }

  function PendingKey(pending: seq<PendingIssuer>): string {
    JoinWith(KeyParts(pending), ",")
  }

  function PendingRecords(pending: seq<PendingIssuer>, ready: nat, total: nat): (records: seq<Record>)
    ensures |records| == |pending|
  {
    seq(|pending|, i requires 0 <= i < |pending| => IssuerPending(pending[i].url, pending[i].reason, ready, total))
  }

  function Report(c: Config, h: Health, pending: seq<PendingIssuer>): Health {
    if PendingKey(pending) == h.lastPending then h
    else h.(
      lastPending := PendingKey(pending),
      log := h.log + PendingRecords(pending, |h.initialized|, |c.issuers|))
  }

  function Latch(c: Config, h: Health, pending: seq<PendingIssuer>): Health {
    if h.ready || (c.requireAll && pending != []) || (!c.requireAll && h.initialized == {}) then h
    else h.(
      ready := true, readyGauge := true,
      log := h.log + [ProxyReady(|h.initialized|, |c.issuers|, c.requireAll)])
  }

  /** The second critical section. */
  function Settle(c: Config, h: Health, newly: seq<string>, pending: seq<PendingIssuer>): Health {
    var marked := MarkAll(c, h, newly);
    var current := Current(pending, marked.initialized);
    Latch(c, Report(c, marked, current), current)
  }

  // ---- The check itself ----

  class HealthCheck {
    const config: Config
    var serving: bool
    var ready: bool
    var initialized: set<string>
    var lastPending: string
    var log: seq<Record>
    var issuerGauge: map<string, bool>
    var readyGauge: bool

    ghost function View(): Health
      reads this
    {
      Health(serving, ready, initialized, lastPending, log, issuerGauge, readyGauge)
    }

    /** NewServer followed by WithMetrics. */
    constructor (config: Config)
      ensures this.config == config && View() == Initial(config)
    {
      this.config := config;
      serving, ready, initialized, lastPending, log, readyGauge := false, false, {}, "", [], false;
      new;
      issuerGauge := map[];
      for i := 0 to |config.issuers|
        modifies this`issuerGauge
        invariant issuerGauge == Seeded(config.issuers[..i], config.issuerName)
      {
        assert config.issuers[..i + 1][..i] == config.issuers[..i];
        issuerGauge := issuerGauge[config.issuerName(config.issuers[i]) := false];
      }
      assert config.issuers[..|config.issuers|] == config.issuers;
    }

    method SetServing()
      modifies this
      ensures View() == old(View()).(serving := true)
    {
      serving := true;
    }

    /** The first critical section: which issuers to probe. */
    method Snapshot() returns (toProbe: seq<string>)
      ensures toProbe == Uninitialized(config.issuers, initialized)
    {
      toProbe := [];
      for i := 0 to |config.issuers|
        invariant toProbe == Uninitialized(config.issuers[..i], initialized)
      {
        assert config.issuers[..i + 1][..i] == config.issuers[..i];
        if config.issuers[i] !in initialized {
          toProbe := toProbe + [config.issuers[i]];
        }
      }
      assert config.issuers[..|config.issuers|] == config.issuers;
    }

    /** The second critical section: record the round, then evaluate readiness. The result is Check's. */
    method Finish(newly: seq<string>, pending: seq<PendingIssuer>) returns (ok: bool)
      modifies this
      ensures View() == Settle(config, old(View()), newly, pending)
      ensures ok == ready
    {
      var current := RecordProbeResults(newly, pending);
      if ready {
        return true;
      }
      if config.requireAll && |current| > 0 {
        return false;
      }
      if !config.requireAll && |initialized| == 0 {
        return false;
      }
      ready := true;
      readyGauge := true;
      log := log + [ProxyReady(|initialized|, |config.issuers|, config.requireAll)];
      return true;
    }

    method RecordProbeResults(newly: seq<string>, pending: seq<PendingIssuer>)
      returns (current: seq<PendingIssuer>)
      modifies this
      ensures var marked := MarkAll(config, old(View()), newly);
        && current == Current(pending, marked.initialized)
        && View() == Report(config, marked, current)
    {
      MarkNewly(newly);
      current := DropStale(pending);
      var key := PendingKey(current);
      if key != lastPending {
        EmitPending(current);
        lastPending := key;
      }
    }

    method MarkNewly(newly: seq<string>)
      modifies this
      ensures View() == MarkAll(config, old(View()), newly)
    {
      for i := 0 to |newly|
        invariant View() == MarkAll(config, old(View()), newly[..i])
      {
        assert newly[..i + 1][..i] == newly[..i];
        MarkOne(newly[i]);
      }
      assert newly[..|newly|] == newly;
    }

    method MarkOne(url: string)
      modifies this
      ensures View() == Mark(config, old(View()), url)
    {
      if url !in initialized {
        initialized := initialized + {url};
        issuerGauge := issuerGauge[config.issuerName(url) := true];
        log := log + [IssuerInitialized(url, |initialized|, |config.issuers|)];
      }
    }

    method DropStale(pending: seq<PendingIssuer>) returns (current: seq<PendingIssuer>)
      ensures current == Current(pending, initialized)
    {
      current := [];
      for i := 0 to |pending|
        invariant current == Current(pending[..i], initialized)
      {
        assert pending[..i + 1][..i] == pending[..i];
        if pending[i].url !in initialized {
          current := current + [pending[i]];
        }
      }
      assert pending[..|pending|] == pending;
    }

    method EmitPending(pending: seq<PendingIssuer>)
      modifies this`log
      ensures log == old(log) + PendingRecords(pending, |initialized|, |config.issuers|)
    {
      for i := 0 to |pending|
        invariant log == old(log) + PendingRecords(pending, |initialized|, |config.issuers|)[..i]
      {
        log := log + [IssuerPending(pending[i].url, pending[i].reason, |initialized|, |config.issuers|)];
      }
    }
  }

  /** The probes themselves, run while no lock is held. */
  method ProbeAll(toProbe: seq<string>, outcomes: seq<Outcome>)
    returns (newly: seq<string>, pending: seq<PendingIssuer>)
    requires |toProbe| == |outcomes|
    ensures newly == Newly(toProbe, outcomes) && pending == Pending(toProbe, outcomes)
  {
    newly, pending := [], [];
    for i := 0 to |toProbe|
      invariant newly == Newly(toProbe[..i], outcomes[..i]) && pending == Pending(toProbe[..i], outcomes[..i])
    {
      assert toProbe[..i + 1][..i] == toProbe[..i] && outcomes[..i + 1][..i] == outcomes[..i];
      if outcomes[i].Failed? && PendingReason(outcomes[i]) != ERROR {
        pending := pending + [PendingIssuer(toProbe[i], PendingReason(outcomes[i]))];
      } else {
        newly := newly + [toProbe[i]];
      }
    }
    assert toProbe[..|toProbe|] == toProbe && outcomes[..|outcomes|] == outcomes;
  }

  // ---- The key of a pending set ----

  predicate IsPendingReason(reason: string) {
    reason == NOT_INITIALIZED || reason == TRANSIENT
  }

  predicate CommaFree(pending: seq<PendingIssuer>) {
    forall i :: 0 <= i < |pending| ==> ',' !in pending[i].url && IsPendingReason(pending[i].reason)
  }

  lemma PartDeterminesIssuer(a: PendingIssuer, b: PendingIssuer)
    requires IsPendingReason(a.reason) && IsPendingReason(b.reason)
    requires a.url + "=" + a.reason == b.url + "=" + b.reason
    ensures a == b
  {
    var s, t := a.url + "=" + a.reason, b.url + "=" + b.reason;
    assert s[|s| - 1] == a.reason[|a.reason| - 1] && t[|t| - 1] == b.reason[|b.reason| - 1];
    assert NOT_INITIALIZED[14] == 'd' && TRANSIENT[8] == 't';
    assert s[..|a.url|] == a.url && t[..|b.url|] == b.url;
  }

  /** Equal keys mean equal pending sets, reasons and order included, for URLs without commas; with them unrelated
      sets may share a key, as CommasCollide shows. */
  lemma KeyIsInjective(a: seq<PendingIssuer>, b: seq<PendingIssuer>)
    requires CommaFree(a) && CommaFree(b) && PendingKey(a) == PendingKey(b)
    ensures a == b
  {
    KeyOfEmpty(a);
    KeyOfEmpty(b);
    if a != [] && b != [] {
      PartsAreCommaFree(a);
      PartsAreCommaFree(b);
      SplitJoin(KeyParts(a), ',');
      SplitJoin(KeyParts(b), ',');
      forall i | 0 <= i < |a|
        ensures |a| == |b| && a[i] == b[i]
      {
        assert KeyParts(a)[i] == KeyParts(b)[i];
        PartDeterminesIssuer(a[i], b[i]);
      }
    }
  }

  lemma PartsAreCommaFree(a: seq<PendingIssuer>)
    requires CommaFree(a)
    ensures forall p :: p in KeyParts(a) ==> ',' !in p
  {
  }

  lemma KeyOfEmpty(a: seq<PendingIssuer>)
    ensures PendingKey(a) == "" <==> a == []
  {
    if a != [] {
      assert |KeyParts(a)[0]| > 0;
    }
  }

  /** Of the bare key function only: unrelated lists over URLs with commas may share a key. Consecutive rounds
      are never such lists. */
  lemma CommasCollide()
    ensures var a := [PendingIssuer("a", TRANSIENT), PendingIssuer("b", TRANSIENT)];
      var b := [PendingIssuer("a=transient,b", TRANSIENT)];
      a != b && PendingKey(a) == PendingKey(b)
  {
    var a := [PendingIssuer("a", TRANSIENT), PendingIssuer("b", TRANSIENT)];
    var b := [PendingIssuer("a=transient,b", TRANSIENT)];
    assert "a" + "=" + TRANSIENT == "a=transient" && "b" + "=" + TRANSIENT == "b=transient";
    assert KeyParts(a)[0] == "a=transient" && KeyParts(a)[1..] == ["b=transient"];
    assert JoinWith(["b=transient"], ",") == "b=transient";
    assert PendingKey(a) == "a=transient" + "," + "b=transient";
    assert PendingKey(b) == "a=transient,b" + "=" + TRANSIENT;
  }

  // ---- Issuer names ----

  ghost predicate NamesDistinct(urls: seq<string>, issuerName: string -> string) {
    forall i, j :: 0 <= i < j < |urls| ==> issuerName(urls[i]) != issuerName(urls[j])
  }

  datatype Clash = Clash(name: string, first: string, other: string)

  ghost predicate IsFirstClash(urls: seq<string>, issuerName: string -> string, i: int, j: int, clash: Clash) {
    && 0 <= i < j < |urls|
    && NamesDistinct(urls[..j], issuerName)
    && issuerName(urls[j]) == issuerName(urls[i])
    && clash == Clash(issuerName(urls[i]), urls[i], urls[j])
  }

  /** duplicateIssuerName: a clash is reported exactly when two configured URLs map onto one name, and it
      names the entry already stored and the first one to collide with it. */
  method DuplicateIssuerName(urls: seq<string>, issuerName: string -> string) returns (clash: Option<Clash>)
    ensures clash.None? <==> NamesDistinct(urls, issuerName)
    ensures clash.Some? ==> exists i, j :: IsFirstClash(urls, issuerName, i, j, clash.value)
  {
    var seen: map<string, string> := map[];
    for i := 0 to |urls|
      invariant NamesDistinct(urls[..i], issuerName)
      invariant forall k :: 0 <= k < i ==> issuerName(urls[k]) in seen && seen[issuerName(urls[k])] == urls[k]
      invariant forall n :: n in seen ==> exists k :: 0 <= k < i && issuerName(urls[k]) == n
    {
      var n := issuerName(urls[i]);
      if n in seen {
        ghost var k :| 0 <= k < i && issuerName(urls[k]) == n;
        assert IsFirstClash(urls, issuerName, k, i, Clash(n, seen[n], urls[i]));
        return Some(Clash(n, seen[n], urls[i]));
      }
      assert issuerName(urls[i]) == n;
      seen := seen[n := urls[i]];
    }
    assert urls[..|urls|] == urls;
    return None;
  }
}
