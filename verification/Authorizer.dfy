/** The walk over a request's impersonation headers: one authorization question per value, asked in the
    order the header map happens to be iterated, with an early exit at the first refusal. */
module Authorizer {
  import opened Strings
  import opened Headers
  import opened ReviewSpec
  import opened Errors

  datatype Ask = Ask(resource: string, name: string)

  datatype Answer = Allowed | NotAllowed | Failed(error: Error)

  /** What answers the i-th question a request asks. */
  type Oracle = (nat, Ask) -> Answer

  datatype Refusal =
    | TooManyValues(count: nat, limit: int)
    | NoUser
    | Denied(requester: string, kind: string, target: string)
    | UnknownHeader(key: string)
    | ReviewFailed(error: Error)

  datatype Outcome =
    | NotImpersonating
    | Granted(target: User, headers: Header)
    | Refused(refusal: Refusal)

  const PREFIX := "impersonate-"
  const EXTRA_PREFIX := "impersonate-extra-"
  const EMPTY_TARGET := User("", "", [], map[])

  predicate Impersonates(key: string) {
    PREFIX <= Lower(key)
  }

  predicate IsExtra(key: string) {
    EXTRA_PREFIX <= Lower(key)
  }

  function ExtraName(key: string): string
    requires IsExtra(key)
  {
    Lower(key[|EXTRA_PREFIX|..])
  }

  function Quote(s: string): string {
    "'" + s + "'"
  }

  /** An order in which the keys of h may be visited. */
  ghost predicate IsOrder(h: Header, order: seq<string>) {
    && (forall k :: k in order <==> k in h)
    && (forall i, j :: 0 <= i < j < |order| ==> order[i] != order[j])
  }

  // ---- What one header contributes ----

  datatype Item = Question(ask: Ask, kind: string, shown: string) | Stop(refusal: Refusal)

  function GroupItems(values: seq<string>): (r: seq<Item>)
    ensures |r| == |values|
  {
    seq(|values|, i requires 0 <= i < |values| => Question(Ask("groups", values[i]), "group", Quote(values[i])))
  }

  function ExtraItems(name: string, values: seq<string>): (r: seq<Item>)
    ensures |r| == |values|
  {
    seq(|values|, i requires 0 <= i < |values| =>
      Question(Ask(EXTRA_RESOURCE + name, values[i]), "extra info", Quote(name) + "=" + Quote(values[i])))
  }

  function Items(h: Header, key: string): (r: seq<Item>)
    requires key in h && h[key] != []
    ensures |r| <= if Impersonates(key) then |h[key]| else 0
  {
    var lower := Lower(key);
    var values := h[key];
    if !Impersonates(key) then []
    else if Get(h, "impersonate-user") == "" then [Stop(NoUser)]
    else if lower == "impersonate-user" then
      if values[0] == "" then [] else [Question(Ask("users", values[0]), "user", Quote(values[0]))]
    else if lower == "impersonate-group" then GroupItems(values)
    else if lower == "impersonate-uid" then [Question(Ask("uids", values[0]), "uid", Quote(values[0]))]
    else if IsExtra(key) then ExtraItems(ExtraName(key), values)
    else [Stop(UnknownHeader(key))]
  }

  ghost predicate NonEmptyLists(h: Header) {
    forall k :: k in h ==> h[k] != []
  }

  /** Everything the walk meets, in the order it meets it. */
  function Script(h: Header, keys: seq<string>): seq<Item>
    requires forall k :: k in keys ==> k in h && h[k] != []
  {
    if keys == [] then [] else Script(h, keys[..|keys| - 1]) + Items(h, keys[|keys| - 1])
  }

  // ---- Playing the script against the answers ----

  /** Whether the walk gets past item n. */
  predicate Passes(items: seq<Item>, n: nat, oracle: Oracle)
    requires n < |items|
  {
    items[n].Question? && oracle(n, items[n].ask).Allowed?
  }

  /** The first refusal from item n on. */
  function FirstRefusal(items: seq<Item>, n: nat, requester: User, oracle: Oracle): Option<Refusal>
    requires n <= |items|
    decreases |items| - n
  {
    if n == |items| then None
    else match items[n]
      case Stop(refusal) => Some(refusal)
      case Question(ask, kind, shown) =>
        match oracle(n, ask)
        case Allowed => FirstRefusal(items, n + 1, requester, oracle)
        case NotAllowed => Some(Denied(requester.name, kind, shown))
        case Failed(error) => Some(ReviewFailed(error))
  }

  /** The questions asked from item n on: all up to and including the first one not answered allow. */
  function Asked(items: seq<Item>, n: nat, oracle: Oracle): (r: seq<Ask>)
    requires n <= |items|
    ensures |r| <= |items| - n
    decreases |items| - n
  {
    if n == |items| || items[n].Stop? then []
    else if Passes(items, n, oracle) then [items[n].ask] + Asked(items, n + 1, oracle)
    else [items[n].ask]
  }

  function CountValues(h: Header, keys: seq<string>): nat
    requires forall k :: k in keys ==> k in h
  {
    if keys == [] then 0
    else
      var last := keys[|keys| - 1];
      CountValues(h, keys[..|keys| - 1]) + if Impersonates(last) then |h[last]| else 0
  }

  /** The target after visiting one more header. */
  function Extend(target: User, h: Header, key: string): User
    requires key in h && h[key] != []
  {
    var lower := Lower(key);
    var values := h[key];
    if !Impersonates(key) then target
    else if lower == "impersonate-user" then
      if values[0] == "" then target else target.(name := values[0])
    else if lower == "impersonate-group" then target.(groups := target.groups + values)
    else if lower == "impersonate-uid" then target.(uid := values[0])
    else if IsExtra(key) then target.(extra := AppendExtra(target.extra, ExtraName(key), values))
    else target
  }

  function AppendExtra(extra: map<string, seq<string>>, name: string, values: seq<string>): map<string, seq<string>> {
    if values == [] then extra
    else extra[name := (if name in extra then extra[name] else []) + values]
  }

  function TargetOf(h: Header, keys: seq<string>): User
    requires forall k :: k in keys ==> k in h && h[k] != []
  {
    if keys == [] then EMPTY_TARGET
    else Extend(TargetOf(h, keys[..|keys| - 1]), h, keys[|keys| - 1])
  }

  /** Adding each value of a key to the outgoing headers. */
  function AddAll(out: Header, key: string, values: seq<string>): Header {
    if values == [] then out
    else Add(AddAll(out, key, values[..|values| - 1]), key, values[|values| - 1])
  }

  /** The outgoing headers after visiting the given keys. */
  function Forwarded(h: Header, keys: seq<string>): Header {
    if keys == [] then map[]
    else
      var last := keys[|keys| - 1];
      var before := Forwarded(h, keys[..|keys| - 1]);
      if Impersonates(last) then before else AddAll(before, last, Values(h, last))
  }

  /** The whole check, as a function of the answers and of the order the two loops visit the headers in. */
  function Check(h: Header, order: seq<string>, order2: seq<string>, requester: User, limit: int, oracle: Oracle)
    : (r: (Outcome, seq<Ask>))
    requires NonEmptyLists(h) && IsOrder(h, order)
  {
    var count := CountValues(h, order);
    if count > limit then (Refused(TooManyValues(count, limit)), [])
    else
      var items := Script(h, order);
      var asked := Asked(items, 0, oracle);
      match FirstRefusal(items, 0, requester, oracle)
      case Some(refusal) => (Refused(refusal), asked)
      case None =>
        if forall k | k in h :: !Impersonates(k) then (NotImpersonating, asked)
        else (Granted(TargetOf(h, order), Forwarded(h, order2)), asked)
  }

  // ---- The loops ----

  method CountImpersonationHeaderValues(h: Header, order: seq<string>) returns (count: nat)
    requires forall k :: k in order ==> k in h
    ensures count == CountValues(h, order)
  {
    count := 0;
    for i := 0 to |order|
      invariant count == CountValues(h, order[..i])
    {
      assert order[..i + 1][..i] == order[..i];
      if Impersonates(order[i]) {
        count := count + |h[order[i]]|;
      }
    }
    assert order[..|order|] == order;
  }

  lemma {:induction false} ScriptPrefix(h: Header, keys: seq<string>, i: nat)
    requires forall k :: k in keys ==> k in h && h[k] != []
    requires i <= |keys|
    ensures Script(h, keys[..i]) <= Script(h, keys)
  {
    if i == |keys| {
      assert keys[..i] == keys;
    } else {
      ScriptPrefix(h, keys[..|keys| - 1], i);
      assert keys[..|keys| - 1][..i] == keys[..i];
    }
  }

  /** Whether the items of one header stand in the script from position n on. */
  ghost predicate StandsAt(items: seq<Item>, n: nat, header: seq<Item>) {
    n + |header| <= |items| && items[n..n + |header|] == header
  }

  lemma PrefixStands(before: seq<Item>, header: seq<Item>, items: seq<Item>)
    requires before + header <= items
    ensures StandsAt(items, |before|, header)
  {
    assert items[..|before + header|] == before + header;
    assert items[|before|..|before| + |header|] == (before + header)[|before|..];
  }

  /** Where the items of the i-th key stand in the script. */
  lemma ItemsStandAt(h: Header, keys: seq<string>, i: nat)
    requires forall k :: k in keys ==> k in h && h[k] != []
    requires i < |keys|
    ensures Script(h, keys[..i + 1]) == Script(h, keys[..i]) + Items(h, keys[i])
    ensures StandsAt(Script(h, keys), |Script(h, keys[..i])|, Items(h, keys[i]))
  {
    ScriptPrefix(h, keys, i + 1);
    assert keys[..i + 1][..i] == keys[..i];
    PrefixStands(Script(h, keys[..i]), Items(h, keys[i]), Script(h, keys));
  }

  /** The walk so far: every item before the next question was a question answered allow. */
  ghost predicate OnTrack(items: seq<Item>, asked: seq<Ask>, requester: User, oracle: Oracle) {
    && |asked| <= |items|
    && asked + Asked(items, |asked|, oracle) == Asked(items, 0, oracle)
    && FirstRefusal(items, |asked|, requester, oracle) == FirstRefusal(items, 0, requester, oracle)
  }

  lemma OneMore(items: seq<Item>, asked: seq<Ask>, requester: User, oracle: Oracle)
    requires OnTrack(items, asked, requester, oracle) && |asked| < |items| && Passes(items, |asked|, oracle)
    ensures OnTrack(items, asked + [items[|asked|].ask], requester, oracle)
  {
    var n := |asked|;
    assert asked + ([items[n].ask] + Asked(items, n + 1, oracle))
        == (asked + [items[n].ask]) + Asked(items, n + 1, oracle);
  }

  /** Asking the values of one header in turn, stopping at the first one not answered allow. */
  method AskEach(ghost items: seq<Item>, header: seq<Item>, requester: User, oracle: Oracle, asked: seq<Ask>)
    returns (refusal: Option<Refusal>, asked': seq<Ask>)
    requires OnTrack(items, asked, requester, oracle) && StandsAt(items, |asked|, header)
    requires forall item :: item in header ==> item.Question?
    ensures refusal.Some? ==>
      refusal == FirstRefusal(items, 0, requester, oracle) && asked' == Asked(items, 0, oracle)
    ensures refusal.None? ==> OnTrack(items, asked', requester, oracle) && |asked'| == |asked| + |header|
  {
    asked' := asked;
    for j := 0 to |header|
      invariant |asked'| == |asked| + j
      invariant OnTrack(items, asked', requester, oracle)
    {
      var question := header[j];
      assert items[|asked| + j] == items[|asked|..|asked| + |header|][j] == question;
      var answer := oracle(|asked'|, question.ask);
      match answer {
        case Failed(error) => return Some(ReviewFailed(error)), asked' + [question.ask];
        case NotAllowed => return Some(Denied(requester.name, question.kind, question.shown)), asked' + [question.ask];
        case Allowed => OneMore(items, asked', requester, oracle);
      }
      asked' := asked' + [question.ask];
    }
    refusal := None;
  }

  lemma StopStands(items: seq<Item>, n: nat, refusal: Refusal)
    requires StandsAt(items, n, [Stop(refusal)])
    ensures n < |items| && items[n] == Stop(refusal)
  {
    assert items[n] == items[n..n + 1][0];
  }

  /** One turn of the outer loop. */
  method Visit(h: Header, key: string, ghost items: seq<Item>, requester: User, oracle: Oracle,
               asked: seq<Ask>, target: User)
    returns (refusal: Option<Refusal>, asked': seq<Ask>, target': User)
    requires NonEmptyLists(h) && key in h && Impersonates(key)
    requires OnTrack(items, asked, requester, oracle) && StandsAt(items, |asked|, Items(h, key))
    ensures refusal.Some? ==>
      refusal == FirstRefusal(items, 0, requester, oracle) && asked' == Asked(items, 0, oracle)
    ensures refusal.None? ==> OnTrack(items, asked', requester, oracle)
    ensures refusal.None? ==> |asked'| == |asked| + |Items(h, key)| && target' == Extend(target, h, key)
  {
    var lower, values := Lower(key), h[key];
    var header := Items(h, key);
    target' := target;
    if Get(h, "impersonate-user") == "" {
      StopStands(items, |asked|, NoUser);
      return Some(NoUser), asked, target;
    } else if lower == "impersonate-user" {
      if values[0] != "" {
        refusal, asked' := AskEach(items, header, requester, oracle, asked);
        if refusal.None? {
          target' := target.(name := values[0]);
        }
      } else {
        refusal, asked' := None, asked;
      }
    } else if lower == "impersonate-group" {
      refusal, asked' := AskEach(items, header, requester, oracle, asked);
      if refusal.None? {
        target' := target.(groups := target.groups + values);
      }
    } else if lower == "impersonate-uid" {
      refusal, asked' := AskEach(items, header, requester, oracle, asked);
      if refusal.None? {
        target' := target.(uid := values[0]);
      }
    } else if IsExtra(key) {
      refusal, asked' := AskEach(items, header, requester, oracle, asked);
      if refusal.None? {
        target' := target.(extra := AppendExtra(target.extra, ExtraName(key), values));
      }
    } else {
      StopStands(items, |asked|, UnknownHeader(key));
      return Some(UnknownHeader(key)), asked, target;
    }
  }

  predicate AnyImpersonates(keys: seq<string>) {
    keys != [] && (AnyImpersonates(keys[..|keys| - 1]) || Impersonates(keys[|keys| - 1]))
  }

  lemma {:induction false} AnyMeansSome(keys: seq<string>)
    ensures AnyImpersonates(keys) <==> exists k :: k in keys && Impersonates(k)
  {
    if keys != [] {
      AnyMeansSome(keys[..|keys| - 1]);
      assert keys == keys[..|keys| - 1] + [keys[|keys| - 1]];
    }
  }

  /** The outer loop over the headers. */
  method Walk(h: Header, order: seq<string>, requester: User, oracle: Oracle)
    returns (refusal: Option<Refusal>, asked: seq<Ask>, target: User, impersonating: bool)
    requires NonEmptyLists(h) && forall k :: k in order ==> k in h
    ensures refusal == FirstRefusal(Script(h, order), 0, requester, oracle)
    ensures asked == Asked(Script(h, order), 0, oracle)
    ensures refusal.None? ==> target == TargetOf(h, order)
    ensures refusal.None? ==> (impersonating <==> exists k :: k in order && Impersonates(k))
  {
    asked, target, impersonating := [], EMPTY_TARGET, false;
    ghost var items := Script(h, order);
    for i := 0 to |order|
      invariant OnTrack(items, asked, requester, oracle) && |asked| == |Script(h, order[..i])|
      invariant target == TargetOf(h, order[..i])
      invariant impersonating <==> AnyImpersonates(order[..i])
    {
      var key := order[i];
      assert order[..i + 1][..i] == order[..i];
      ItemsStandAt(h, order, i);
      if Impersonates(key) {
        impersonating := true;
        refusal, asked, target := Visit(h, key, items, requester, oracle, asked, target);
        if refusal.Some? {
          return;
        }
      } else {
        assert Items(h, key) == [];
      }
    }
    assert order[..|order|] == order;
    AnyMeansSome(order);
    refusal := None;
  }

  /** CheckAuthorizedForImpersonation: count first, then walk the headers in the order the map yields them
      (order), then copy what is left in the order the map yields it the second time (order2). */
  method CheckAuthorizedForImpersonation(
    h: Header, order: seq<string>, order2: seq<string>, requester: User, limit: int, oracle: Oracle)
    returns (out: Outcome, asked: seq<Ask>)
    requires NonEmptyLists(h) && IsOrder(h, order)
    ensures (out, asked) == Check(h, order, order2, requester, limit, oracle)
  {
    var count := CountImpersonationHeaderValues(h, order);
    if count > limit {
      return Refused(TooManyValues(count, limit)), [];
    }
    var refusal, target, impersonating;
    refusal, asked, target, impersonating := Walk(h, order, requester, oracle);
    if refusal.Some? {
      out := Refused(refusal.value);
    } else if !impersonating {
      out := NotImpersonating;
    } else {
      var headers := ForwardHeaders(h, order2);
      out := Granted(target, headers);
    }
  }

  /** Copying every header that was not consumed. */
  method ForwardHeaders(h: Header, order: seq<string>) returns (out: Header)
    ensures out == Forwarded(h, order)
  {
    out := map[];
    for i := 0 to |order|
      invariant out == Forwarded(h, order[..i])
    {
      assert order[..i + 1][..i] == order[..i];
      var key := order[i];
      if !Impersonates(key) {
        var values := Values(h, key);
        ghost var before := out;
        for j := 0 to |values|
          invariant out == AddAll(before, key, values[..j])
        {
          assert values[..j + 1][..j] == values[..j];
          out := Add(out, key, values[j]);
        }
        assert values[..|values|] == values;
      }
    }
    assert order[..|order|] == order;
  }
}
