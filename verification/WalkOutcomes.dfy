/** What the authorizer answers and why, in terms of the headers, the order they are visited in and the answers
    to the questions alone. */
module WalkOutcomes {
  import opened Strings
  import opened Headers
  import opened ReviewSpec
  import opened Authorizer
  import Laws = AuthorizerLaws

  /** The four kinds of impersonation header. */
  predicate Known(key: string) {
    Lower(key) in {"impersonate-user", "impersonate-group", "impersonate-uid"} || IsExtra(key)
  }

  predicate AnyImpersonation(h: Header) {
    exists k :: k in h && Impersonates(k)
  }

  /** The questions one header puts, one a value; only the first value of a name or a uid counts. */
  function QuestionsOf(h: Header, key: string): seq<Ask>
    requires key in h && h[key] != []
  {
    var lower, values := Lower(key), h[key];
    if lower == "impersonate-user" then if values[0] == "" then [] else [Ask("users", values[0])]
    else if lower == "impersonate-group" then seq(|values|, i requires 0 <= i < |values| => Ask("groups", values[i]))
    else if lower == "impersonate-uid" then [Ask("uids", values[0])]
    else if IsExtra(key) then
      seq(|values|, i requires 0 <= i < |values| => Ask("userextras/" + ExtraName(key), values[i]))
    else []
  }

  function Questions(h: Header, keys: seq<string>): seq<Ask>
    requires forall k :: k in keys ==> k in h && h[k] != []
  {
    if keys == [] then [] else Questions(h, keys[..|keys| - 1]) + QuestionsOf(h, keys[|keys| - 1])
  }

  /** They are the questions about the header's values and no others. */
  lemma QuestionsByKind(h: Header, key: string, ask: Ask)
    requires key in h && h[key] != []
    ensures ask in QuestionsOf(h, key) <==> Laws.AsksOfKind(h, key, ask)
  {
    Laws.KindsAreDisjoint(key);
    var questions, values := QuestionsOf(h, key), h[key];
    if Lower(key) == "impersonate-group" {
      assert forall i :: 0 <= i < |values| ==> questions[i] in questions && questions[i] == Ask("groups", values[i]);
    } else if Lower(key) != "impersonate-user" && Lower(key) != "impersonate-uid" && IsExtra(key) {
      assert forall i :: 0 <= i < |values| ==>
        questions[i] in questions && questions[i] == Ask(EXTRA_RESOURCE + ExtraName(key), values[i]);
    }
  }

  lemma {:induction false} QuestionsCome(h: Header, keys: seq<string>, ask: Ask)
    requires forall k :: k in keys ==> k in h && h[k] != []
    ensures ask in Questions(h, keys) <==> exists k :: k in keys && Laws.AsksOfKind(h, k, ask)
  {
    if keys != [] {
      var before, last := keys[..|keys| - 1], keys[|keys| - 1];
      assert keys == before + [last];
      QuestionsCome(h, before, ask);
      QuestionsByKind(h, last, ask);
    }
  }

  /** How the message of a denial names the value it is about. */
  predicate Described(ask: Ask, kind: string, shown: string) {
    || (ask.resource == "users" && kind == "user" && shown == "'" + ask.name + "'")
    || (ask.resource == "groups" && kind == "group" && shown == "'" + ask.name + "'")
    || (ask.resource == "uids" && kind == "uid" && shown == "'" + ask.name + "'")
    || (EXTRA_RESOURCE <= ask.resource && kind == "extra info"
        && shown == "'" + ExtraNameIn(ask.resource) + "'='" + ask.name + "'")
  }

  /** The refusal an answer other than allow leads to. */
  predicate Follows(refusal: Refusal, requester: User, ask: Ask, answer: Answer) {
    match answer
    case Allowed => false
    case NotAllowed =>
      refusal.Denied? && refusal.requester == requester.name && Described(ask, refusal.kind, refusal.target)
    case Failed(error) => refusal == ReviewFailed(error)
  }

  // ---- The script and the questions ----

  ghost predicate Puts(items: seq<Item>, questions: seq<Ask>) {
    && |questions| <= |items|
    && (forall i :: 0 <= i < |questions| ==>
          items[i].Question? && items[i].ask == questions[i] && Described(questions[i], items[i].kind, items[i].shown))
  }

  lemma HeaderPuts(h: Header, key: string)
    requires key in h && h[key] != [] && Get(h, "impersonate-user") != ""
    ensures Impersonates(key) && !Known(key) ==> Items(h, key) == [Stop(UnknownHeader(key))]
    ensures !Impersonates(key) || Known(key) ==>
      |Items(h, key)| == |QuestionsOf(h, key)| && Puts(Items(h, key), QuestionsOf(h, key))
  {
    Laws.KindsAreDisjoint(key);
    if IsExtra(key) {
      var x := ExtraName(key);
      assert ExtraNameIn(EXTRA_RESOURCE + x) == x;
      forall v: string
        ensures Quote(x) + "=" + Quote(v) == "'" + x + "'='" + v + "'"
      {
        assert "'" + "=" + "'" == "'='";
      }
    }
  }

  lemma PutsAppend(a: seq<Item>, p: seq<Ask>, b: seq<Item>, q: seq<Ask>)
    requires |a| == |p| && Puts(a, p) && Puts(b, q)
    ensures Puts(a + b, p + q)
  {
  }

  lemma {:induction false} ScriptPuts(h: Header, keys: seq<string>)
    requires (forall k :: k in keys ==> k in h && h[k] != []) && Get(h, "impersonate-user") != ""
    requires forall k :: k in keys && Impersonates(k) ==> Known(k)
    ensures |Script(h, keys)| == |Questions(h, keys)| && Puts(Script(h, keys), Questions(h, keys))
  {
    if keys != [] {
      var n := |keys| - 1;
      ScriptPuts(h, keys[..n]);
      HeaderPuts(h, keys[n]);
      PutsAppend(Script(h, keys[..n]), Questions(h, keys[..n]), Items(h, keys[n]), QuestionsOf(h, keys[n]));
    }
  }

  /** What a walk decides that puts these questions and then ends, or stops at what it may not read. */
  ghost predicate Plays(
    questions: seq<Ask>, end: Option<Refusal>, n: nat, requester: User, oracle: Oracle,
    refusal: Option<Refusal>, asked: seq<Ask>)
    requires n <= |questions|
  {
    var last := |asked| - 1;
    && asked <= questions[n..]
    && (forall i :: 0 <= i < last ==> oracle(n + i, asked[i]).Allowed?)
    && if asked != [] && !oracle(n + last, asked[last]).Allowed?
       then refusal.Some? && Follows(refusal.value, requester, asked[last], oracle(n + last, asked[last]))
       else asked == questions[n..] && refusal == end
  }

  lemma {:induction false} PlaysOn(
    questions: seq<Ask>, end: Option<Refusal>, n: nat, requester: User, oracle: Oracle,
    refusal: Option<Refusal>, rest: seq<Ask>)
    requires n < |questions| && oracle(n, questions[n]).Allowed?
    requires Plays(questions, end, n + 1, requester, oracle, refusal, rest)
    ensures Plays(questions, end, n, requester, oracle, refusal, [questions[n]] + rest)
  {
    var asked := [questions[n]] + rest;
    assert questions[n..] == [questions[n]] + questions[n + 1..];
    forall i | 0 <= i < |asked| - 1
      ensures oracle(n + i, asked[i]).Allowed?
    {
      if i > 0 {
        assert oracle(n + 1 + (i - 1), rest[i - 1]).Allowed?;
      }
    }
    if rest != [] {
      assert asked[|asked| - 1] == rest[|rest| - 1];
      assert n + 1 + (|rest| - 1) == n + (|asked| - 1);
    }
  }

  lemma {:induction false} WalkPlays(
    items: seq<Item>, questions: seq<Ask>, end: Option<Refusal>, n: nat, requester: User, oracle: Oracle)
    requires Puts(items, questions) && n <= |questions|
    requires if end.None? then |items| == |questions|
             else |items| > |questions| && items[|questions|] == Stop(end.value)
    ensures Plays(
      questions, end, n, requester, oracle, FirstRefusal(items, n, requester, oracle), Asked(items, n, oracle))
    decreases |questions| - n
  {
    if n < |questions| {
      if Passes(items, n, oracle) {
        WalkPlays(items, questions, end, n + 1, requester, oracle);
        PlaysOn(questions, end, n, requester, oracle,
          FirstRefusal(items, n + 1, requester, oracle), Asked(items, n + 1, oracle));
      } else {
        assert Asked(items, n, oracle) == [questions[n]] <= questions[n..];
      }
    }
  }

  // ---- Where the walk may stop ----

  /** Position u is that of the first impersonation header of no known kind, or the end. */
  ghost predicate FirstUnknown(order: seq<string>, u: nat) {
    && u <= |order|
    && (forall i :: 0 <= i < u && Impersonates(order[i]) ==> Known(order[i]))
    && (u < |order| ==> Impersonates(order[u]) && !Known(order[u]))
  }

  lemma FindFirstUnknown(order: seq<string>) returns (u: nat)
    ensures FirstUnknown(order, u)
  {
    u := 0;
    while u < |order| && (Impersonates(order[u]) ==> Known(order[u]))
      invariant u <= |order| && forall i :: 0 <= i < u && Impersonates(order[i]) ==> Known(order[i])
    {
      u := u + 1;
    }
  }

  function EndOf(order: seq<string>, u: nat): Option<Refusal>
    requires u <= |order|
  {
    if u < |order| then Some(UnknownHeader(order[u])) else None
  }

  lemma NamedWalk(h: Header, order: seq<string>, u: nat, requester: User, oracle: Oracle)
    requires NonEmptyLists(h) && IsOrder(h, order) && FirstUnknown(order, u) && Get(h, "impersonate-user") != ""
    ensures var items := Script(h, order);
      Plays(Questions(h, order[..u]), EndOf(order, u), 0, requester, oracle,
        FirstRefusal(items, 0, requester, oracle), Asked(items, 0, oracle))
  {
    var questions := Questions(h, order[..u]);
    ScriptPuts(h, order[..u]);
    ScriptPrefix(h, order, u);
    if u < |order| {
      ItemsStandAt(h, order, u);
      HeaderPuts(h, order[u]);
      StopStands(Script(h, order), |questions|, UnknownHeader(order[u]));
    } else {
      assert order[..u] == order;
    }
    WalkPlays(Script(h, order), questions, EndOf(order, u), 0, requester, oracle);
  }

  lemma NamelessWalk(h: Header, order: seq<string>, requester: User, oracle: Oracle)
    requires NonEmptyLists(h) && IsOrder(h, order) && Get(h, "impersonate-user") == "" && AnyImpersonation(h)
    ensures FirstRefusal(Script(h, order), 0, requester, oracle) == Some(NoUser)
    ensures Asked(Script(h, order), 0, oracle) == []
  {
    var items := Script(h, order);
    var k :| k in h && Impersonates(k);
    Laws.ItemsSource(h, order, Stop(NoUser));
    assert Stop(NoUser) in Items(h, k) && k in order;
    Laws.ItemsSource(h, order, items[0]);
  }

  lemma PlainWalk(h: Header, order: seq<string>, requester: User, oracle: Oracle)
    requires NonEmptyLists(h) && IsOrder(h, order) && !AnyImpersonation(h)
    ensures FirstRefusal(Script(h, order), 0, requester, oracle) == None
    ensures Asked(Script(h, order), 0, oracle) == []
  {
    if Script(h, order) != [] {
      Laws.ItemsSource(h, order, Script(h, order)[0]);
    }
  }

  // ---- The outcome ----

  /** A request whose target is named: the questions are put in the order of the headers and end with the first that
      is not allowed, whose answer gives the refusal. If all are allowed, the first header of no known kind does, and
      without one the target is granted. */
  ghost predicate Walked(
    h: Header, order: seq<string>, u: nat, requester: User, oracle: Oracle, out: Outcome, asked: seq<Ask>)
    requires NonEmptyLists(h) && IsOrder(h, order) && u <= |order|
  {
    var questions, last := Questions(h, order[..u]), |asked| - 1;
    && asked <= questions
    && (forall i :: 0 <= i < last ==> oracle(i, asked[i]).Allowed?)
    && if asked != [] && !oracle(last, asked[last]).Allowed?
       then out.Refused? && Follows(out.refusal, requester, asked[last], oracle(last, asked[last]))
       else asked == questions && if u < |order| then out == Refused(UnknownHeader(order[u])) else out.Granted?
  }

  lemma WalkedOnce(
    h: Header, order: seq<string>, u: nat, requester: User, oracle: Oracle, out: Outcome,
    refusal: Option<Refusal>, asked: seq<Ask>)
    requires NonEmptyLists(h) && IsOrder(h, order) && u <= |order|
    requires Plays(Questions(h, order[..u]), EndOf(order, u), 0, requester, oracle, refusal, asked)
    requires if refusal.Some? then out == Refused(refusal.value) else out.Granted?
    ensures Walked(h, order, u, requester, oracle, out, asked)
  {
    var questions := Questions(h, order[..u]);
    assert questions[0..] == questions;
  }

  /** The walk decides for a request within the cap. */
  lemma WalkDecides(
    h: Header, order: seq<string>, order2: seq<string>, requester: User, limit: int, oracle: Oracle)
    requires NonEmptyLists(h) && IsOrder(h, order) && CountValues(h, order) <= limit
    ensures var (out, asked) := Check(h, order, order2, requester, limit, oracle);
      var refusal := FirstRefusal(Script(h, order), 0, requester, oracle);
      && asked == Asked(Script(h, order), 0, oracle)
      && if refusal.Some? then out == Refused(refusal.value)
         else if AnyImpersonation(h) then out.Granted? else out == NotImpersonating
  {
  }

  /** Every outcome and every question, by cases a caller could tell apart beforehand. */
  ghost predicate Explained(
    h: Header, order: seq<string>, u: nat, requester: User, limit: int, oracle: Oracle, out: Outcome, asked: seq<Ask>)
    requires NonEmptyLists(h) && IsOrder(h, order) && u <= |order|
  {
    var count := CountValues(h, order);
    if count > limit then out == Refused(TooManyValues(count, limit)) && asked == []
    else if !AnyImpersonation(h) then out == NotImpersonating && asked == []
    else if Get(h, "impersonate-user") == "" then out == Refused(NoUser) && asked == []
    else Walked(h, order, u, requester, oracle, out, asked)
  }

  lemma OutcomeExplained(
    h: Header, order: seq<string>, order2: seq<string>, requester: User, limit: int, oracle: Oracle, u: nat)
    requires NonEmptyLists(h) && IsOrder(h, order) && FirstUnknown(order, u)
    ensures var (out, asked) := Check(h, order, order2, requester, limit, oracle);
      Explained(h, order, u, requester, limit, oracle, out, asked)
  {
    if CountValues(h, order) <= limit {
      WalkDecides(h, order, order2, requester, limit, oracle);
      if !AnyImpersonation(h) {
        PlainWalk(h, order, requester, oracle);
      } else if Get(h, "impersonate-user") == "" {
        NamelessWalk(h, order, requester, oracle);
      } else {
        var (out, asked) := Check(h, order, order2, requester, limit, oracle);
        NamedWalk(h, order, u, requester, oracle);
        WalkedOnce(h, order, u, requester, oracle, out, FirstRefusal(Script(h, order), 0, requester, oracle), asked);
      }
    }
  }

  /** What a refusal stands for: a denial for a denied last question, under the requester's name and with that value as
      its target; a failure for the error of the last question; a missing user for a request that impersonates without
      naming one; an unknown header for one whose first such header it is, with every question before it allowed. */
  ghost predicate RefusedFor(
    h: Header, order: seq<string>, u: nat, requester: User, limit: int, oracle: Oracle, asked: seq<Ask>,
    refusal: Refusal)
    requires NonEmptyLists(h) && IsOrder(h, order) && u <= |order|
  {
    var last := |asked| - 1;
    var walks := CountValues(h, order) <= limit && AnyImpersonation(h);
    match refusal
    case TooManyValues(count, cap) => count == CountValues(h, order) > limit == cap
    case NoUser => walks && Get(h, "impersonate-user") == ""
    case Denied(name, kind, target) =>
      asked != [] && oracle(last, asked[last]).NotAllowed?
      && name == requester.name && Described(asked[last], kind, target)
    case UnknownHeader(key) =>
      walks && Get(h, "impersonate-user") != "" && u < |order| && key == order[u]
      && forall i :: 0 <= i < |asked| ==> oracle(i, asked[i]).Allowed?
    case ReviewFailed(error) => asked != [] && oracle(last, asked[last]) == Failed(error)
  }

  lemma DescribedOnce(ask: Ask, kind: string, shown: string, kind': string, shown': string)
    requires Described(ask, kind, shown) && Described(ask, kind', shown')
    ensures kind == kind' && shown == shown'
  {
    if EXTRA_RESOURCE <= ask.resource {
      assert ask.resource[4] == 'e' && |ask.resource| > 5;
    }
  }

  lemma ReadOff(
    h: Header, order: seq<string>, u: nat, requester: User, limit: int, oracle: Oracle, out: Outcome, asked: seq<Ask>,
    refusal: Refusal)
    requires NonEmptyLists(h) && IsOrder(h, order) && u <= |order|
    requires Explained(h, order, u, requester, limit, oracle, out, asked)
    ensures out == Refused(refusal) <==> RefusedFor(h, order, u, requester, limit, oracle, asked, refusal)
  {
    if CountValues(h, order) <= limit && AnyImpersonation(h) && Get(h, "impersonate-user") != "" {
      var last := |asked| - 1;
      if refusal.Denied? && asked != [] && oracle(last, asked[last]).NotAllowed? {
        if Described(asked[last], refusal.kind, refusal.target) {
          DescribedOnce(asked[last], refusal.kind, refusal.target, out.refusal.kind, out.refusal.target);
        }
      }
    }
  }

  /** A request gets a refusal if and only if it is refused for what that refusal stands for. */
  lemma RefusedExactlyWhen(
    h: Header, order: seq<string>, order2: seq<string>, requester: User, limit: int, oracle: Oracle, refusal: Refusal,
    u: nat)
    requires NonEmptyLists(h) && IsOrder(h, order) && FirstUnknown(order, u)
    ensures var (out, asked) := Check(h, order, order2, requester, limit, oracle);
      out == Refused(refusal) <==> RefusedFor(h, order, u, requester, limit, oracle, asked, refusal)
  {
    OutcomeExplained(h, order, order2, requester, limit, oracle, u);
    var (out, asked) := Check(h, order, order2, requester, limit, oracle);
    ReadOff(h, order, u, requester, limit, oracle, out, asked, refusal);
  }

  /** Every value of every impersonation header is allowed: within the cap, with a user named, no header of an unknown
      kind, and each question allowed in its turn. */
  ghost predicate ValuesAllowed(h: Header, order: seq<string>, limit: int, oracle: Oracle)
    requires NonEmptyLists(h) && IsOrder(h, order)
  {
    && CountValues(h, order) <= limit
    && Get(h, "impersonate-user") != ""
    && (forall k :: k in h && Impersonates(k) ==> Known(k))
    && forall i :: 0 <= i < |Questions(h, order)| ==> oracle(i, Questions(h, order)[i]).Allowed?
  }

  lemma NoneUnknown(h: Header, order: seq<string>, u: nat)
    requires IsOrder(h, order) && FirstUnknown(order, u)
    ensures u == |order| <==> forall k :: k in h && Impersonates(k) ==> Known(k)
  {
    if u == |order| {
      forall k | k in h && Impersonates(k)
        ensures Known(k)
      {
        assert k in order;
      }
    } else {
      assert order[u] in order;
    }
  }

  /** Questions asked in turn until one is not allowed: all are allowed exactly when all are asked and the last is. */
  lemma AllAreAllowed(questions: seq<Ask>, asked: seq<Ask>, oracle: Oracle)
    requires asked <= questions && forall i :: 0 <= i < |asked| - 1 ==> oracle(i, asked[i]).Allowed?
    ensures (forall i :: 0 <= i < |questions| ==> oracle(i, questions[i]).Allowed?)
      ==> asked == [] || oracle(|asked| - 1, asked[|asked| - 1]).Allowed?
    ensures asked == questions && (asked == [] || oracle(|asked| - 1, asked[|asked| - 1]).Allowed?)
      ==> forall i :: 0 <= i < |questions| ==> oracle(i, questions[i]).Allowed?
  {
  }

  lemma GrantReadOff(
    h: Header, order: seq<string>, u: nat, requester: User, limit: int, oracle: Oracle, out: Outcome, asked: seq<Ask>)
    requires NonEmptyLists(h) && IsOrder(h, order) && FirstUnknown(order, u) && AnyImpersonation(h)
    requires Explained(h, order, u, requester, limit, oracle, out, asked)
    ensures out.Granted? <==> ValuesAllowed(h, order, limit, oracle)
    ensures out.Granted? ==> asked == Questions(h, order)
  {
    NoneUnknown(h, order, u);
    if CountValues(h, order) <= limit && Get(h, "impersonate-user") != "" && u == |order| {
      assert order[..u] == order;
      AllAreAllowed(Questions(h, order), asked, oracle);
    }
  }

  /** A request that impersonates is granted its target if and only if every value is allowed; then exactly those
      questions were asked, in the order of the headers. */
  lemma GrantedExactlyWhen(
    h: Header, order: seq<string>, order2: seq<string>, requester: User, limit: int, oracle: Oracle)
    requires NonEmptyLists(h) && IsOrder(h, order) && AnyImpersonation(h)
    ensures var (out, asked) := Check(h, order, order2, requester, limit, oracle);
      && (out.Granted? <==> ValuesAllowed(h, order, limit, oracle))
      && (out.Granted? ==> asked == Questions(h, order))
  {
    var u := FindFirstUnknown(order);
    OutcomeExplained(h, order, order2, requester, limit, oracle, u);
    var (out, asked) := Check(h, order, order2, requester, limit, oracle);
    GrantReadOff(h, order, u, requester, limit, oracle, out, asked);
  }

  // ---- The number of values ----

  /** The values of impersonation headers, by where they stand. */
  function Positions(h: Header, keys: set<string>): set<(string, nat)>
    requires forall k :: k in keys ==> k in h
  {
    set k, i: nat | k in keys && Impersonates(k) && i < |h[k]| :: (k, i)
  }

  lemma {:induction false} OneHeadersPositions(key: string, n: nat)
    ensures |set i: nat | i < n :: (key, i)| == n
  {
    if n > 0 {
      OneHeadersPositions(key, n - 1);
      assert (set i: nat | i < n :: (key, i)) == (set i: nat | i < n - 1 :: (key, i)) + {(key, n - 1)};
    }
  }

  lemma {:induction false} CountIsPositions(h: Header, keys: seq<string>)
    requires forall k :: k in keys ==> k in h
    requires forall i, j :: 0 <= i < j < |keys| ==> keys[i] != keys[j]
    ensures CountValues(h, keys) == |Positions(h, set k | k in keys)|
  {
    if keys == [] {
      assert Positions(h, set k | k in keys) == {};
    } else {
      var before, last := keys[..|keys| - 1], keys[|keys| - 1];
      assert keys == before + [last];
      CountIsPositions(h, before);
      var rest := Positions(h, set k | k in before);
      var own := if Impersonates(last) then set i: nat | i < |h[last]| :: (last, i) else {};
      assert Positions(h, set k | k in keys) == rest + own;
      assert rest !! own;
      OneHeadersPositions(last, |h[last]|);
    }
  }

  /** The number held against the cap is the number of values in impersonation headers. */
  lemma CountIsTheNumberOfValues(h: Header, order: seq<string>)
    requires IsOrder(h, order)
    ensures CountValues(h, order) == |Positions(h, h.Keys)|
  {
    CountIsPositions(h, order);
    assert (set k | k in order) == h.Keys;
  }
}
