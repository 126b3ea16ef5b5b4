/** What the walk decides, said without mentioning the order it walks in. */
module AuthorizerLaws {
  import opened Strings
  import opened Headers
  import opened ReviewSpec
  import opened Authorizer

  // ---- How many questions ----

  lemma {:induction false} ScriptFitsCount(h: Header, keys: seq<string>)
    requires forall k :: k in keys ==> k in h && h[k] != []
    ensures |Script(h, keys)| <= CountValues(h, keys)
  {
    if keys != [] {
      ScriptFitsCount(h, keys[..|keys| - 1]);
    }
  }

  /** A request asks at most as many questions as it carries values, so never more than the cap, and one
      over the cap asks none. */
  lemma QuestionsAreCapped(
    h: Header, order: seq<string>, order2: seq<string>, requester: User, limit: int, oracle: Oracle)
    requires NonEmptyLists(h) && IsOrder(h, order)
    ensures |Check(h, order, order2, requester, limit, oracle).1| <= CountValues(h, order)
    ensures limit > 0 ==> |Check(h, order, order2, requester, limit, oracle).1| <= limit
    ensures CountValues(h, order) > limit <==>
      Check(h, order, order2, requester, limit, oracle).0 == Refused(TooManyValues(CountValues(h, order), limit))
    ensures CountValues(h, order) > limit ==> Check(h, order, order2, requester, limit, oracle).1 == []
  {
    ScriptFitsCount(h, order);
    StopsOfTheScript(h, order);
    RefusalIsNotTooMany(Script(h, order), 0, requester, oracle);
  }

  lemma {:induction false} ItemsSource(h: Header, keys: seq<string>, item: Item)
    requires forall k :: k in keys ==> k in h && h[k] != []
    ensures item in Script(h, keys) <==> exists k :: k in keys && item in Items(h, k)
  {
    if keys != [] {
      var front, last := keys[..|keys| - 1], keys[|keys| - 1];
      ItemsSource(h, front, item);
      assert forall k :: k in keys <==> k in front || k == last;
      assert item in Script(h, keys) <==> item in Script(h, front) || item in Items(h, last);
    }
  }

  lemma StopOfAKey(h: Header, k: string, item: Item)
    requires k in h && h[k] != [] && item in Items(h, k) && item.Stop?
    ensures item.refusal.NoUser? || item.refusal.UnknownHeader?
  {
  }

  lemma StopsOfTheScript(h: Header, keys: seq<string>)
    requires forall k :: k in keys ==> k in h && h[k] != []
    ensures forall item :: item in Script(h, keys) && item.Stop? ==> item.refusal.NoUser? || item.refusal.UnknownHeader?
  {
    forall item | item in Script(h, keys) && item.Stop?
      ensures item.refusal.NoUser? || item.refusal.UnknownHeader?
    {
      ItemsSource(h, keys, item);
      var k :| k in keys && item in Items(h, k);
      StopOfAKey(h, k, item);
    }
  }

  lemma {:induction false} RefusalIsNotTooMany(items: seq<Item>, n: nat, requester: User, oracle: Oracle)
    requires forall item :: item in items && item.Stop? ==> item.refusal.NoUser? || item.refusal.UnknownHeader?
    requires n <= |items|
    ensures var r := FirstRefusal(items, n, requester, oracle); r.Some? ==> !r.value.TooManyValues?
    decreases |items| - n
  {
    if n < |items| && items[n].Question? && oracle(n, items[n].ask).Allowed? {
      RefusalIsNotTooMany(items, n + 1, requester, oracle);
    }
  }

  lemma WithoutOne(keys: seq<string>, i: nat)
    requires i < |keys| - 1
    ensures var n, rest := |keys| - 1, keys[..i] + keys[i + 1..];
      rest == (keys[..n][..i] + keys[..n][i + 1..]) + [keys[n]]
      && rest[..|rest| - 1] == keys[..n][..i] + keys[..n][i + 1..] && rest[|rest| - 1] == keys[n] && keys[..n][i] == keys[i]
  {
  }

  lemma {:induction false} CountWithout(h: Header, keys: seq<string>, i: nat)
    requires i < |keys| && forall k :: k in keys ==> k in h
    ensures forall k :: k in keys[..i] + keys[i + 1..] ==> k in h
    ensures CountValues(h, keys) == CountValues(h, keys[..i] + keys[i + 1..])
      + if Impersonates(keys[i]) then |h[keys[i]]| else 0
  {
    var n := |keys| - 1;
    var rest := keys[..i] + keys[i + 1..];
    if i == n {
      assert rest == keys[..n];
    } else {
      WithoutOne(keys, i);
      CountWithout(h, keys[..n], i);
    }
  }

  lemma MultisetWithout(s: seq<string>, i: nat)
    requires i < |s|
    ensures multiset(s[..i] + s[i + 1..]) == multiset(s) - multiset{s[i]}
  {
    assert s == s[..i] + [s[i]] + s[i + 1..];
  }

  /** The count does not depend on the order the headers are visited in. */
  lemma {:induction false} CountIsOrderFree(h: Header, a: seq<string>, b: seq<string>)
    requires forall k :: k in a ==> k in h
    requires forall k :: k in b ==> k in h
    requires multiset(a) == multiset(b)
    ensures CountValues(h, a) == CountValues(h, b)
  {
    if a == [] {
      assert |multiset(b)| == 0;
    } else {
      var n := |a| - 1;
      assert a[n] in multiset(b);
      var i :| 0 <= i < |b| && b[i] == a[n];
      CountWithout(h, b, i);
      MultisetWithout(a, n);
      MultisetWithout(b, i);
      assert a[..n] + a[n + 1..] == a[..n];
      CountIsOrderFree(h, a[..n], b[..i] + b[i + 1..]);
    }
  }

  lemma {:induction false} DistinctCounts(a: seq<string>, k: string)
    requires forall i, j :: 0 <= i < j < |a| ==> a[i] != a[j]
    ensures multiset(a)[k] == if k in a then 1 else 0
  {
    if a != [] {
      var n := |a| - 1;
      DistinctCounts(a[..n], k);
      assert a == a[..n] + [a[n]];
    }
  }

  lemma OrdersArePermutations(h: Header, a: seq<string>, b: seq<string>)
    requires IsOrder(h, a) && IsOrder(h, b)
    ensures multiset(a) == multiset(b)
  {
    forall k
      ensures multiset(a)[k] == multiset(b)[k]
    {
      DistinctCounts(a, k);
      DistinctCounts(b, k);
    }
  }

  // ---- Whether it succeeds ----

  /** Every value of every impersonation header is one the verdict allows, and nothing stops the walk. */
  ghost predicate AllAllowed(h: Header, verdict: Ask -> Answer)
    requires NonEmptyLists(h)
  {
    forall k, item :: k in h && item in Items(h, k) ==> ItemAllowed(item, verdict)
  }

  predicate ItemAllowed(item: Item, verdict: Ask -> Answer) {
    item.Question? && verdict(item.ask).Allowed?
  }

  function Fixed(verdict: Ask -> Answer): Oracle {
    (i: nat, ask: Ask) => verdict(ask)
  }

  lemma {:induction false} NoRefusal(items: seq<Item>, n: nat, requester: User, oracle: Oracle)
    requires n <= |items|
    ensures FirstRefusal(items, n, requester, oracle).None?
      <==> forall i :: n <= i < |items| ==> Passes(items, i, oracle)
    decreases |items| - n
  {
    if n < |items| {
      NoRefusal(items, n + 1, requester, oracle);
      if !Passes(items, n, oracle) {
        assert FirstRefusal(items, n, requester, oracle).Some?;
      }
    }
  }

  lemma AllPass(items: seq<Item>, requester: User, verdict: Ask -> Answer)
    ensures FirstRefusal(items, 0, requester, Fixed(verdict)).None?
      <==> forall item :: item in items ==> ItemAllowed(item, verdict)
  {
    NoRefusal(items, 0, requester, Fixed(verdict));
    forall i | 0 <= i < |items|
      ensures Passes(items, i, Fixed(verdict)) <==> ItemAllowed(items[i], verdict)
    {
    }
    if forall item :: item in items ==> ItemAllowed(item, verdict) {
      forall i | 0 <= i < |items|
        ensures Passes(items, i, Fixed(verdict))
      {
        assert items[i] in items;
      }
    }
  }

  lemma AllowedInScript(h: Header, order: seq<string>, verdict: Ask -> Answer, item: Item)
    requires NonEmptyLists(h) && IsOrder(h, order) && AllAllowed(h, verdict) && item in Script(h, order)
    ensures ItemAllowed(item, verdict)
  {
    ItemsSource(h, order, item);
    var k :| k in order && item in Items(h, k);
  }

  lemma AllowedFromScript(h: Header, order: seq<string>, verdict: Ask -> Answer, k: string, item: Item)
    requires NonEmptyLists(h) && IsOrder(h, order) && k in h && item in Items(h, k)
    requires forall i :: i in Script(h, order) ==> ItemAllowed(i, verdict)
    ensures ItemAllowed(item, verdict)
  {
    ItemsSource(h, order, item);
    assert item in Script(h, order);
  }

  /** The walk succeeds exactly when every value is allowed: nothing about the order is left. */
  lemma SucceedsExactlyWhenAllAllowed(h: Header, order: seq<string>, requester: User, verdict: Ask -> Answer)
    requires NonEmptyLists(h) && IsOrder(h, order)
    ensures FirstRefusal(Script(h, order), 0, requester, Fixed(verdict)).None? <==> AllAllowed(h, verdict)
  {
    AllPass(Script(h, order), requester, verdict);
    if AllAllowed(h, verdict) {
      forall item | item in Script(h, order)
        ensures ItemAllowed(item, verdict)
      {
        AllowedInScript(h, order, verdict, item);
      }
    } else if forall item :: item in Script(h, order) ==> ItemAllowed(item, verdict) {
      var k, item :| k in h && item in Items(h, k) && !ItemAllowed(item, verdict);
      AllowedFromScript(h, order, verdict, k, item);
    }
  }

  // ---- The target ----

  /** The identity the headers name. */
  ghost predicate Names(h: Header, target: User) {
    && target.name == Get(h, "impersonate-user")
    && target.groups == Values(h, "impersonate-group")
    && target.uid == Get(h, "impersonate-uid")
    && (forall k :: k in h && IsExtra(k) ==> ExtraName(k) in target.extra && target.extra[ExtraName(k)] == h[k])
    && (forall x :: x in target.extra ==> exists k :: k in h && IsExtra(k) && ExtraName(k) == x)
  }

  lemma NamesOneTarget(h: Header, a: User, b: User)
    requires Names(h, a) && Names(h, b)
    ensures a == b
  {
    forall x
      ensures x in a.extra <==> x in b.extra
      ensures x in a.extra ==> a.extra[x] == b.extra[x]
    {
    }
    assert a.extra == b.extra;
  }

  lemma ExtraNameOf(key: string)
    requires IsExtra(key)
    ensures Lower(key) == EXTRA_PREFIX + ExtraName(key)
  {
    var n := |EXTRA_PREFIX|;
    assert Lower(key)[..n] == EXTRA_PREFIX;
    assert Lower(key)[n..] == Lower(key[n..]);
  }

  /** What each of the four kinds of header has contributed after visiting some of the keys. */
  ghost predicate NamedBy(h: Header, keys: seq<string>, t: User) {
    && (forall k :: k in keys && Lower(k) == "impersonate-user" ==> k in h && h[k] != [] && t.name == h[k][0])
    && ((forall k :: k in keys ==> Lower(k) != "impersonate-user") ==> t.name == "")
    && (forall k :: k in keys && Lower(k) == "impersonate-group" ==> k in h && t.groups == h[k])
    && ((forall k :: k in keys ==> Lower(k) != "impersonate-group") ==> t.groups == [])
    && (forall k :: k in keys && Lower(k) == "impersonate-uid" ==> k in h && h[k] != [] && t.uid == h[k][0])
    && ((forall k :: k in keys ==> Lower(k) != "impersonate-uid") ==> t.uid == "")
    && (forall k :: k in keys && IsExtra(k) ==> k in h && ExtraName(k) in t.extra && t.extra[ExtraName(k)] == h[k])
    && (forall x :: x in t.extra ==> exists k :: k in keys && IsExtra(k) && ExtraName(k) == x)
  }

  lemma KindsAreDisjoint(key: string)
    ensures Lower(key) == "impersonate-user" ==> !IsExtra(key) && Impersonates(key)
    ensures Lower(key) == "impersonate-group" ==> !IsExtra(key) && Impersonates(key)
    ensures Lower(key) == "impersonate-uid" ==> !IsExtra(key) && Impersonates(key)
    ensures IsExtra(key) ==> Impersonates(key)
  {
    assert "impersonate-user"[12] == 'u';
    assert "impersonate-group"[12] == 'g';
    assert "impersonate-uid"[12] == 'u';
    assert EXTRA_PREFIX[12] == 'e';
    assert EXTRA_PREFIX[..|PREFIX|] == PREFIX;
    assert "impersonate-user"[..|PREFIX|] == PREFIX;
    assert "impersonate-group"[..|PREFIX|] == PREFIX;
    assert "impersonate-uid"[..|PREFIX|] == PREFIX;
  }

  lemma {:induction false} TargetIsNamedBy(h: Header, keys: seq<string>)
    requires FromServer(h) && forall k :: k in keys ==> k in h
    requires forall i, j :: 0 <= i < j < |keys| ==> keys[i] != keys[j]
    ensures NamedBy(h, keys, TargetOf(h, keys))
  {
    if keys != [] {
      var n := |keys| - 1;
      var before, key := keys[..n], keys[n];
      TargetIsNamedBy(h, before);
      assert keys == before + [key];
      KindsAreDisjoint(key);
      forall k | k in before
        ensures Lower(k) != Lower(key)
        ensures IsExtra(k) && IsExtra(key) ==> ExtraName(k) != ExtraName(key)
      {
        if Lower(k) == Lower(key) {
          CanonicalKeysStayDistinct(h, k, key);
        }
        if IsExtra(k) && IsExtra(key) {
          ExtraNameOf(k);
          ExtraNameOf(key);
        }
      }
      ExtendStep(h, before, key, TargetOf(h, before));
    }
  }

  lemma ExtendPlain(h: Header, before: seq<string>, key: string, t: User)
    requires NamedBy(h, before, t) && key in h && h[key] != []
    requires forall k :: k in before ==> Lower(k) != Lower(key)
    requires !IsExtra(key)
    ensures NamedBy(h, before + [key], Extend(t, h, key))
  {
    KindsAreDisjoint(key);
    assert forall k :: k in before + [key] <==> k in before || k == key;
    forall x | x in t.extra
      ensures exists k :: k in before + [key] && IsExtra(k) && ExtraName(k) == x
    {
      var k :| k in before && IsExtra(k) && ExtraName(k) == x;
      assert k in before + [key];
    }
  }

  lemma ExtendExtra(h: Header, before: seq<string>, key: string, t: User)
    requires NamedBy(h, before, t) && key in h && h[key] != []
    requires forall k :: k in before ==> Lower(k) != Lower(key)
    requires IsExtra(key) && forall k :: k in before && IsExtra(k) ==> ExtraName(k) != ExtraName(key)
    ensures NamedBy(h, before + [key], Extend(t, h, key))
  {
    KindsAreDisjoint(key);
    var t' := Extend(t, h, key);
    var keys := before + [key];
    assert forall k :: k in keys <==> k in before || k == key;
    assert ExtraName(key) !in t.extra;
    assert [] + h[key] == h[key];
    assert t'.extra == t.extra[ExtraName(key) := h[key]];
    assert key in keys;
    forall x | x in t'.extra
      ensures exists k :: k in keys && IsExtra(k) && ExtraName(k) == x
    {
      if x in t.extra {
        var k :| k in before && IsExtra(k) && ExtraName(k) == x;
        assert k in keys;
      }
    }
  }

  lemma ExtendStep(h: Header, before: seq<string>, key: string, t: User)
    requires NamedBy(h, before, t) && key in h && h[key] != []
    requires forall k :: k in before ==> Lower(k) != Lower(key)
    requires forall k :: k in before && IsExtra(k) && IsExtra(key) ==> ExtraName(k) != ExtraName(key)
    ensures NamedBy(h, before + [key], Extend(t, h, key))
  {
    if IsExtra(key) {
      ExtendExtra(h, before, key, t);
    } else {
      ExtendPlain(h, before, key, t);
    }
  }

  /** The one key of a server header that a lower-case name stands for. */
  lemma FindKey(h: Header, name: string)
    requires FromServer(h) && IsToken(name) && Lower(name) == name
    ensures CanonicalKey(name) in h <==> exists k :: k in h && Lower(k) == name
    ensures forall k :: k in h && Lower(k) == name ==> k == CanonicalKey(name)
  {
    forall k | k in h && Lower(k) == name
      ensures k == CanonicalKey(name)
    {
      LowerDeterminesCanonical(k, name);
    }
    if CanonicalKey(name) in h {
      LowerOfCanonical(name);
    }
  }

  lemma LowerOfCanonical(name: string)
    requires IsToken(name) && Lower(name) == name
    ensures Lower(CanonicalKey(name)) == name
  {
    forall i: nat | i < |name|
      ensures LowerChar(CanonicalChar(name, i)) == name[i]
    {
      assert Lower(name)[i] == LowerChar(name[i]);
      if 'a' <= name[i] <= 'z' {
        assert UpperChar(name[i]) as int + 32 == name[i] as int;
      }
    }
  }

  lemma UserName()
    ensures IsToken("impersonate-user") && Lower("impersonate-user") == "impersonate-user"
  {
  }

  lemma GroupName()
    ensures IsToken("impersonate-group") && Lower("impersonate-group") == "impersonate-group"
  {
  }

  lemma UidName()
    ensures IsToken("impersonate-uid") && Lower("impersonate-uid") == "impersonate-uid"
  {
  }

  lemma FixedNames()
    ensures IsToken("impersonate-user") && Lower("impersonate-user") == "impersonate-user"
    ensures IsToken("impersonate-group") && Lower("impersonate-group") == "impersonate-group"
    ensures IsToken("impersonate-uid") && Lower("impersonate-uid") == "impersonate-uid"
  {
    UserName();
    GroupName();
    UidName();
  }

  /** After visiting every header the target is exactly what the headers name. */
  lemma TargetIsNamed(h: Header, order: seq<string>)
    requires FromServer(h) && IsOrder(h, order)
    ensures Names(h, TargetOf(h, order))
  {
    TargetIsNamedBy(h, order);
    FixedNames();
    FindKey(h, "impersonate-user");
    FindKey(h, "impersonate-group");
    FindKey(h, "impersonate-uid");
  }

  // ---- The forwarded headers ----

  function Kept(h: Header): Header {
    map k | k in h && !Impersonates(k) :: h[k]
  }

  lemma {:induction false} AddAllIs(out: Header, key: string, values: seq<string>)
    ensures values == [] ==> AddAll(out, key, values) == out
    ensures values != [] ==>
      AddAll(out, key, values) == out[CanonicalKey(key) := Values(out, key) + values]
  {
    if values != [] {
      var n := |values| - 1;
      var before := AddAll(out, key, values[..n]);
      AddAllIs(out, key, values[..n]);
      assert Values(before, key) == Values(out, key) + values[..n];
      assert Values(out, key) + values[..n] + [values[n]] == Values(out, key) + values;
      assert before[CanonicalKey(key) := Values(out, key) + values]
          == out[CanonicalKey(key) := Values(out, key) + values];
    }
  }

  /** The headers of some keys, those of impersonation left out. */
  function KeptOf(h: Header, keys: seq<string>): Header
    requires forall k :: k in keys && !Impersonates(k) ==> k in h
  {
    map k | k in keys && !Impersonates(k) :: h[k]
  }

  lemma KeptGrows(h: Header, before: seq<string>, key: string)
    requires forall k :: k in before + [key] && !Impersonates(k) ==> k in h
    requires key !in before && !Impersonates(key)
    ensures KeptOf(h, before + [key]) == KeptOf(h, before)[key := h[key]] && key !in KeptOf(h, before)
  {
    assert key in before + [key];
  }

  lemma KeptStays(h: Header, before: seq<string>, key: string)
    requires forall k :: k in before + [key] && !Impersonates(k) ==> k in h
    requires Impersonates(key)
    ensures KeptOf(h, before + [key]) == KeptOf(h, before)
  {
  }

  lemma {:induction false} ForwardedIs(h: Header, keys: seq<string>)
    requires forall k :: k in keys && !Impersonates(k) ==> k in h && CanonicalKey(k) == k && h[k] != []
    requires forall i, j :: 0 <= i < j < |keys| ==> keys[i] != keys[j]
    ensures Forwarded(h, keys) == KeptOf(h, keys)
  {
    if keys != [] {
      var n := |keys| - 1;
      var before, key := keys[..n], keys[n];
      ForwardedIs(h, before);
      assert keys == before + [key];
      if Impersonates(key) {
        KeptStays(h, before, key);
      } else {
        assert key in keys;
        KeptGrows(h, before, key);
        AddAllIs(Forwarded(h, before), key, h[key]);
        assert [] + h[key] == h[key];
      }
    }
  }

  lemma {:induction false} ForwardedIsCanonical(h: Header, keys: seq<string>)
    ensures forall k :: k in Forwarded(h, keys) ==> CanonicalKey(k) == k && Forwarded(h, keys)[k] != []
  {
    if keys != [] {
      var n := |keys| - 1;
      ForwardedIsCanonical(h, keys[..n]);
      if !Impersonates(keys[n]) {
        AddAllIs(Forwarded(h, keys[..n]), keys[n], Values(h, keys[n]));
        CanonicalKeyIsIdempotent(keys[n]);
      }
    }
  }

  /** The rebuilt header map keeps every other header unchanged exactly when each of them has a canonical
      key and at least one value, which is what net/http hands the proxy. */
  lemma KeepsOtherHeaders(h: Header, order2: seq<string>)
    requires IsOrder(h, order2)
    ensures Forwarded(h, order2) == Kept(h)
      <==> forall k :: k in h && !Impersonates(k) ==> CanonicalKey(k) == k && h[k] != []
  {
    if forall k :: k in h && !Impersonates(k) ==> CanonicalKey(k) == k && h[k] != [] {
      ForwardedIs(h, order2);
      assert Kept(h) == KeptOf(h, order2);
    } else {
      ForwardedIsCanonical(h, order2);
      var k :| k in h && !Impersonates(k) && !(CanonicalKey(k) == k && h[k] != []);
      assert k in Kept(h);
    }
  }

  // ---- The main results ----

  /** A grant, under answers that may differ from one question to the next: the target is what the headers
      name, no impersonation header is left and no other header is touched, the questions asked are exactly
      those naming a part of the target, and each was answered allow. */
  lemma GrantedMeans(
    h: Header, order: seq<string>, order2: seq<string>, requester: User, limit: int, oracle: Oracle)
    requires FromServer(h) && IsOrder(h, order) && IsOrder(h, order2)
    requires Check(h, order, order2, requester, limit, oracle).0.Granted?
    ensures var (out, asked) := Check(h, order, order2, requester, limit, oracle);
      && Names(h, out.target) && out.target.name != "" && out.headers == Kept(h)
      && (forall i :: 0 <= i < |asked| ==> oracle(i, asked[i]).Allowed?)
      && (forall ask :: ask in asked <==> Justifies(h, out.target, ask))
  {
    var target := TargetOf(h, order);
    TargetIsNamed(h, order);
    KeepsOtherHeaders(h, order2);
    UserIsNamed(h, order, requester, oracle);
    AllAnsweredAllow(Script(h, order), requester, oracle);
    forall ask
      ensures ask in Asked(Script(h, order), 0, oracle) <==> Justifies(h, target, ask)
    {
      AskedExactly(h, order, requester, oracle, ask);
      JustifiesExactly(h, target, ask);
    }
  }

  lemma AllAnsweredAllow(items: seq<Item>, requester: User, oracle: Oracle)
    requires FirstRefusal(items, 0, requester, oracle).None?
    ensures forall i :: 0 <= i < |Asked(items, 0, oracle)| ==> oracle(i, Asked(items, 0, oracle)[i]).Allowed?
  {
    NoRefusal(items, 0, requester, oracle);
    AskedAll(items, 0, oracle);
    forall i | 0 <= i < |items|
      ensures oracle(i, Asked(items, 0, oracle)[i]).Allowed?
    {
      assert Passes(items, i, oracle);
    }
  }

  /** Whether a question is one about the target: its name, uid, one of its groups or extra values. */
  ghost predicate Justifies(h: Header, target: User, ask: Ask) {
    || ask == Ask("users", target.name)
    || (ask.resource == "groups" && ask.name in target.groups)
    || (ask == Ask("uids", target.uid) && Values(h, "impersonate-uid") != [])
    || (exists x :: x in target.extra && ask.resource == EXTRA_RESOURCE + x && ask.name in target.extra[x])
  }

  /** The question a header's items hold. */
  ghost predicate AsksIn(h: Header, k: string, ask: Ask)
    requires k in h && h[k] != []
  {
    exists item :: item in Items(h, k) && item.Question? && item.ask == ask
  }

  lemma {:induction false} AskedAll(items: seq<Item>, n: nat, oracle: Oracle)
    requires n <= |items| && forall i :: n <= i < |items| ==> Passes(items, i, oracle)
    ensures |Asked(items, n, oracle)| == |items| - n
    ensures forall i :: n <= i < |items| ==> items[i].Question? && Asked(items, n, oracle)[i - n] == items[i].ask
    decreases |items| - n
  {
    if n < |items| {
      assert Passes(items, n, oracle);
      AskedAll(items, n + 1, oracle);
      forall i | n < i < |items|
        ensures items[i].Question? && Asked(items, n, oracle)[i - n] == items[i].ask
      {
        assert Asked(items, n, oracle)[i - n] == Asked(items, n + 1, oracle)[i - (n + 1)];
      }
    }
  }

  lemma UserIsNamed(h: Header, order: seq<string>, requester: User, oracle: Oracle)
    requires NonEmptyLists(h) && IsOrder(h, order) && !forall k | k in h :: !Impersonates(k)
    requires FirstRefusal(Script(h, order), 0, requester, oracle).None?
    ensures Get(h, "impersonate-user") != ""
  {
    if Get(h, "impersonate-user") == "" {
      var k :| k in h && Impersonates(k);
      assert Items(h, k) == [Stop(NoUser)];
      ItemsSource(h, order, Stop(NoUser));
      StopRefuses(Script(h, order), Stop(NoUser), requester, oracle);
    }
  }

  lemma StopRefuses(items: seq<Item>, item: Item, requester: User, oracle: Oracle)
    requires item in items && item.Stop?
    ensures FirstRefusal(items, 0, requester, oracle).Some?
  {
    NoRefusal(items, 0, requester, oracle);
    var i :| 0 <= i < |items| && items[i] == item;
    assert !Passes(items, i, oracle);
  }

  lemma AskedFromTheStart(items: seq<Item>, oracle: Oracle)
    requires forall i :: 0 <= i < |items| ==> Passes(items, i, oracle)
    ensures |Asked(items, 0, oracle)| == |items|
    ensures forall i :: 0 <= i < |items| ==> items[i].Question? && Asked(items, 0, oracle)[i] == items[i].ask
  {
    AskedAll(items, 0, oracle);
    forall i | 0 <= i < |items|
      ensures items[i].Question? && Asked(items, 0, oracle)[i] == items[i].ask
    {
      assert Asked(items, 0, oracle)[i - 0] == items[i].ask;
    }
  }

  lemma ItemIsAsked(items: seq<Item>, oracle: Oracle, item: Item)
    requires forall i :: 0 <= i < |items| ==> Passes(items, i, oracle)
    requires item in items
    ensures item.Question? && item.ask in Asked(items, 0, oracle)
  {
    AskedFromTheStart(items, oracle);
    var i :| 0 <= i < |items| && items[i] == item;
    assert Asked(items, 0, oracle)[i] == item.ask;
  }

  /** When the whole script passes, what is asked is what its questions ask. */
  lemma AskedIsTheScript(items: seq<Item>, oracle: Oracle, ask: Ask)
    requires forall i :: 0 <= i < |items| ==> Passes(items, i, oracle)
    ensures ask in Asked(items, 0, oracle) <==> exists item :: item in items && item.Question? && item.ask == ask
  {
    AskedFromTheStart(items, oracle);
    var asked := Asked(items, 0, oracle);
    if ask in asked {
      var i :| 0 <= i < |asked| && asked[i] == ask;
      assert items[i] in items && items[i].ask == ask;
    }
    forall item | item in items && item.Question? && item.ask == ask
      ensures ask in asked
    {
      ItemIsAsked(items, oracle, item);
    }
  }

  lemma QuestionComesFromAKey(h: Header, order: seq<string>, item: Item)
    requires NonEmptyLists(h) && IsOrder(h, order) && item in Script(h, order) && item.Question?
    ensures exists k :: k in h && AsksIn(h, k, item.ask)
  {
    ItemsSource(h, order, item);
    var k :| k in order && item in Items(h, k);
    assert AsksIn(h, k, item.ask);
  }

  lemma KeyIsInTheScript(h: Header, order: seq<string>, k: string, ask: Ask)
    requires NonEmptyLists(h) && IsOrder(h, order) && k in h && AsksIn(h, k, ask)
    ensures exists item :: item in Script(h, order) && item.Question? && item.ask == ask
  {
    var item :| item in Items(h, k) && item.Question? && item.ask == ask;
    ItemsSource(h, order, item);
    assert k in order;
  }

  lemma AskedExactly(h: Header, order: seq<string>, requester: User, oracle: Oracle, ask: Ask)
    requires NonEmptyLists(h) && IsOrder(h, order)
    requires FirstRefusal(Script(h, order), 0, requester, oracle).None?
    ensures ask in Asked(Script(h, order), 0, oracle) <==> exists k :: k in h && AsksIn(h, k, ask)
  {
    NoRefusal(Script(h, order), 0, requester, oracle);
    AskedIsTheScript(Script(h, order), oracle, ask);
    if ask in Asked(Script(h, order), 0, oracle) {
      var item :| item in Script(h, order) && item.Question? && item.ask == ask;
      QuestionComesFromAKey(h, order, item);
    } else if k :| k in h && AsksIn(h, k, ask) {
      KeyIsInTheScript(h, order, k, ask);
    }
  }

  /** The questions of one header, by its kind. */
  ghost predicate AsksOfKind(h: Header, k: string, ask: Ask)
    requires k in h && h[k] != []
  {
    || (Lower(k) == "impersonate-user" && h[k][0] != "" && ask == Ask("users", h[k][0]))
    || (Lower(k) == "impersonate-group" && ask.resource == "groups" && ask.name in h[k])
    || (Lower(k) == "impersonate-uid" && ask == Ask("uids", h[k][0]))
    || (IsExtra(k) && ask.resource == EXTRA_RESOURCE + ExtraName(k) && ask.name in h[k])
  }

  lemma AsksInIsByKind(h: Header, k: string, ask: Ask)
    requires k in h && h[k] != [] && Get(h, "impersonate-user") != ""
    ensures AsksIn(h, k, ask) <==> AsksOfKind(h, k, ask)
  {
    KindsAreDisjoint(k);
    var items, values := Items(h, k), h[k];
    if !Impersonates(k) {
      assert items == [];
    } else if Lower(k) == "impersonate-user" {
      assert values[0] != "" ==> Question(Ask("users", values[0]), "user", Quote(values[0])) in items;
    } else if Lower(k) == "impersonate-group" {
      assert forall i :: 0 <= i < |values| ==> items[i] in items && items[i].ask == Ask("groups", values[i]);
    } else if Lower(k) == "impersonate-uid" {
      assert Question(Ask("uids", values[0]), "uid", Quote(values[0])) in items;
    } else if IsExtra(k) {
      assert forall i :: 0 <= i < |values| ==>
        items[i] in items && items[i].ask == Ask(EXTRA_RESOURCE + ExtraName(k), values[i]);
    }
  }

  lemma ExtraJustifies(h: Header, target: User, ask: Ask, x: string)
    requires NonEmptyLists(h) && Names(h, target) && x in target.extra
    requires ask.resource == EXTRA_RESOURCE + x && ask.name in target.extra[x]
    ensures exists k :: k in h && AsksOfKind(h, k, ask)
  {
    var k :| k in h && IsExtra(k) && ExtraName(k) == x;
    assert AsksOfKind(h, k, ask);
  }

  /** The keys of a server header that hold the parts of the target. */
  lemma JustifiesByKind(h: Header, target: User, ask: Ask)
    requires FromServer(h) && Names(h, target) && target.name != ""
    ensures (exists k :: k in h && AsksOfKind(h, k, ask)) <==> Justifies(h, target, ask)
  {
    FixedNames();
    FindKey(h, "impersonate-user");
    FindKey(h, "impersonate-group");
    FindKey(h, "impersonate-uid");
    if x :| x in target.extra && ask.resource == EXTRA_RESOURCE + x && ask.name in target.extra[x] {
      ExtraJustifies(h, target, ask, x);
    }
  }

  lemma JustifiesExactly(h: Header, target: User, ask: Ask)
    requires FromServer(h) && Names(h, target) && target.name != ""
    ensures (exists k :: k in h && AsksIn(h, k, ask)) <==> Justifies(h, target, ask)
  {
    JustifiesByKind(h, target, ask);
    forall k | k in h
      ensures AsksIn(h, k, ask) <==> AsksOfKind(h, k, ask)
    {
      AsksInIsByKind(h, k, ask);
    }
  }

  /** What the check amounts to under fixed verdicts. */
  lemma OutcomeUnderFixedVerdicts(
    h: Header, order: seq<string>, order2: seq<string>, requester: User, limit: int, verdict: Ask -> Answer)
    requires FromServer(h) && IsOrder(h, order) && IsOrder(h, order2)
    ensures var out := Check(h, order, order2, requester, limit, Fixed(verdict)).0;
      && (out.Refused? <==> CountValues(h, order) > limit || !AllAllowed(h, verdict))
      && (out.NotImpersonating? ==> forall k :: k in h ==> !Impersonates(k))
      && (out.Granted? ==> out == Granted(TargetOf(h, order), Kept(h)) && exists k :: k in h && Impersonates(k))
  {
    SucceedsExactlyWhenAllAllowed(h, order, requester, verdict);
    KeepsOtherHeaders(h, order2);
  }

  /** With verdicts fixed, the decision is the same for every order the map is iterated in, and so are the
      target and the forwarded headers of a grant. */
  lemma OrderDoesNotMatter(
    h: Header, a: seq<string>, a2: seq<string>, b: seq<string>, b2: seq<string>,
    requester: User, limit: int, verdict: Ask -> Answer)
    requires FromServer(h) && IsOrder(h, a) && IsOrder(h, a2) && IsOrder(h, b) && IsOrder(h, b2)
    ensures var x, y := Check(h, a, a2, requester, limit, Fixed(verdict)).0, Check(h, b, b2, requester, limit, Fixed(verdict)).0;
      if x.Refused? then y.Refused? else x == y
    ensures Check(h, a, a2, requester, limit, Fixed(verdict)).0.Refused?
      <==> CountValues(h, a) > limit || !AllAllowed(h, verdict)
  {
    OutcomeUnderFixedVerdicts(h, a, a2, requester, limit, verdict);
    OutcomeUnderFixedVerdicts(h, b, b2, requester, limit, verdict);
    CountsAgree(h, a, b);
    TargetsAgree(h, a, b);
  }

  lemma CountsAgree(h: Header, a: seq<string>, b: seq<string>)
    requires IsOrder(h, a) && IsOrder(h, b)
    ensures CountValues(h, a) == CountValues(h, b)
  {
    OrdersArePermutations(h, a, b);
    CountIsOrderFree(h, a, b);
  }

  lemma TargetsAgree(h: Header, a: seq<string>, b: seq<string>)
    requires FromServer(h) && IsOrder(h, a) && IsOrder(h, b)
    ensures TargetOf(h, a) == TargetOf(h, b)
  {
    TargetIsNamed(h, a);
    TargetIsNamed(h, b);
    NamesOneTarget(h, TargetOf(h, a), TargetOf(h, b));
  }
}
