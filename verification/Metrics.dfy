/** The request collectors: two gauges, a counter and a histogram, each a family of series by label. */
module Metrics {

  const VERBS: set<string> :=
    {"get", "list", "watch", "create", "update", "patch", "delete", "deletecollection", "proxy", "connect"}
  const SCOPES: set<string> := {"cluster", "namespace", "resource", "none"}
  const TERMINATIONS: set<string> :=
    {"normal", "hijacked", "client_cancel", "panic", "upstream_timeout", "upstream_reset", "proxy_error"}

  function ProjectVerb(verb: string): string {
    if verb in VERBS then verb else "other"
  }

  function ProjectScope(scope: string): string {
    if scope in SCOPES then scope else "none"
  }

  function ProjectTermination(termination: string): string {
    if termination in TERMINATIONS then termination else "other"
  }

  /** The code label: a registered status, or one of two placeholders. */
  datatype Code = NoStatus | OtherStatus | Registered(status: int)

  /** The statuses net/http has a text for. */
  predicate HasText(status: int) {
    || 100 <= status <= 103 || 200 <= status <= 208 || status == 226
    || (300 <= status <= 308 && status != 306)
    || 400 <= status <= 418 || 421 <= status <= 426 || status in {428, 429, 431, 451}
    || 500 <= status <= 508 || status in {510, 511}
  }

  function CodeFor(status: int): Code {
    if status == 0 then NoStatus else if HasText(status) then Registered(status) else OtherStatus
  }

  datatype Series = Series(verb: string, scope: string)

  datatype Labels = Labels(series: Series, code: Code, termination: string)

  function SeriesFor(verb: string, scope: string): Series {
    Series(ProjectVerb(verb), ProjectScope(scope))
  }

  /** Everything known about a request once it has ended. */
  datatype Observation = Observation(
    verb: string, scope: string, status: int, termination: string,
    longRunning: bool, established: bool, hijacked: bool)

  function LabelsFor(o: Observation): Labels {
    Labels(SeriesFor(o.verb, o.scope), CodeFor(o.status), ProjectTermination(o.termination))
  }

  /** Two words are one label when they are equal, or neither is in the vocabulary. */
  predicate SameWord(a: string, b: string, vocabulary: set<string>) {
    a == b || (a !in vocabulary && b !in vocabulary)
  }

  /** Two statuses are one label when they are equal, or both are statuses without a text. */
  predicate SameCode(a: int, b: int) {
    a == b || (a != 0 && b != 0 && !HasText(a) && !HasText(b))
  }

  /** Which requests are counted together: those whose verbs, scopes, statuses and terminations are one label each. A
      word of the vocabulary is its own label, so the labels stay within a fixed set whatever a client sends. */
  lemma LabelsAgreeExactlyWhen(a: Observation, b: Observation)
    ensures SeriesFor(a.verb, a.scope) == SeriesFor(b.verb, b.scope)
      <==> SameWord(a.verb, b.verb, VERBS) && SameWord(a.scope, b.scope, SCOPES - {"none"})
    ensures LabelsFor(a) == LabelsFor(b)
      <==> SeriesFor(a.verb, a.scope) == SeriesFor(b.verb, b.scope) && SameCode(a.status, b.status)
           && SameWord(a.termination, b.termination, TERMINATIONS)
    ensures a.verb in VERBS && a.scope in SCOPES ==> SeriesFor(a.verb, a.scope) == Series(a.verb, a.scope)
    ensures HasText(a.status) ==> LabelsFor(a).code == Registered(a.status)
    ensures a.termination in TERMINATIONS ==> LabelsFor(a).termination == a.termination
  {
    assert "other" !in VERBS && "other" !in TERMINATIONS;
  }

  datatype Collectors = Collectors(
    inFlight: int, longRunning: map<Series, int>, total: map<Labels, int>, durations: map<Series, int>)

  const EMPTY := Collectors(0, map[], map[], map[])

  /** A series nobody has touched reads zero. */
  function At<K>(family: map<K, int>, k: K): int {
    if k in family then family[k] else 0
  }

  function Bump<K>(family: map<K, int>, k: K, change: int): map<K, int> {
    family[k := At(family, k) + change]
  }

  function Started(c: Collectors): Collectors {
    c.(inFlight := c.inFlight + 1)
  }

  function Established(c: Collectors, verb: string, scope: string): Collectors {
    c.(longRunning := Bump(c.longRunning, SeriesFor(verb, scope), 1))
  }

  function Finished(c: Collectors, o: Observation): Collectors {
    var series := SeriesFor(o.verb, o.scope);
    Collectors(
      c.inFlight - 1,
      if o.established then Bump(c.longRunning, series, -1) else c.longRunning,
      Bump(c.total, LabelsFor(o), 1),
      if !o.longRunning && !o.hijacked then Bump(c.durations, series, 1) else c.durations)
  }

  class Recorder {
    var inFlight: int
    var longRunning: map<Series, int>
    var total: map<Labels, int>
    var durations: map<Series, int>

    ghost function View(): Collectors
      reads this
    {
      Collectors(inFlight, longRunning, total, durations)
    }

    constructor ()
      ensures View() == EMPTY
    {
      inFlight, longRunning, total, durations := 0, map[], map[], map[];
    }

    method RequestStarted()
      modifies this
      ensures View() == Started(old(View()))
    {
      inFlight := inFlight + 1;
    }

    method LongRunningEstablished(verb: string, scope: string)
      modifies this
      ensures View() == Established(old(View()), verb, scope)
    {
      longRunning := Bump(longRunning, SeriesFor(verb, scope), 1);
    }

    method RequestFinished(o: Observation)
      modifies this
      ensures View() == Finished(old(View()), o)
    {
      var series := SeriesFor(o.verb, o.scope);
      inFlight := inFlight - 1;
      if o.established {
        longRunning := Bump(longRunning, series, -1);
      }
      total := Bump(total, LabelsFor(o), 1);
      if !o.longRunning && !o.hijacked {
        durations := Bump(durations, series, 1);
      }
    }
  }
}
