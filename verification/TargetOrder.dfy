/** When the target of an impersonation depends on the order its headers are visited in. */
module TargetOrder {
  import opened Headers
  import opened ReviewSpec
  import opened Strings
  import opened Authorizer
  import Laws = AuthorizerLaws

  /** The value a header sets the name to, if it sets one. */
  function NamedBy(values: seq<string>): Option<string>
    requires values != []
  {
    if values[0] == "" then None else Some(values[0])
  }

  /** Whether two headers that agree after lower-casing contribute values whose order does not matter. */
  predicate Commuting(h: Header, a: string, b: string)
    requires a in h && b in h && h[a] != [] && h[b] != []
  {
    if Lower(a) == "impersonate-user" then
      NamedBy(h[a]).None? || NamedBy(h[b]).None? || NamedBy(h[a]) == NamedBy(h[b])
    else if Lower(a) == "impersonate-uid" then h[a][0] == h[b][0]
    else if Lower(a) == "impersonate-group" || IsExtra(a) then h[a] + h[b] == h[b] + h[a]
    else true
  }

  ghost predicate AllCommute(h: Header)
    requires NonEmptyLists(h)
  {
    forall a, b :: a in h && b in h && a != b && Lower(a) == Lower(b) ==> Commuting(h, a, b)
  }

  lemma SameKind(a: string, b: string)
    requires Lower(a) == Lower(b)
    ensures IsExtra(a) <==> IsExtra(b)
    ensures IsExtra(a) ==> ExtraName(a) == ExtraName(b)
  {
    if IsExtra(a) {
      Laws.ExtraNameOf(a);
      Laws.ExtraNameOf(b);
      assert (EXTRA_PREFIX + ExtraName(a))[|EXTRA_PREFIX|..] == ExtraName(a);
      assert (EXTRA_PREFIX + ExtraName(b))[|EXTRA_PREFIX|..] == ExtraName(b);
    }
  }

  lemma OtherName(a: string, b: string)
    requires Lower(a) != Lower(b) && IsExtra(a) && IsExtra(b)
    ensures ExtraName(a) != ExtraName(b)
  {
    Laws.ExtraNameOf(a);
    Laws.ExtraNameOf(b);
  }

  lemma ExtrasOfOneName(e: map<string, seq<string>>, name: string, x: seq<string>, y: seq<string>)
    requires x != [] && y != []
    ensures AppendExtra(AppendExtra(e, name, x), name, y)
      == e[name := (if name in e then e[name] else []) + (x + y)]
  {
    var prior := if name in e then e[name] else [];
    assert (prior + x) + y == prior + (x + y);
  }

  /** Visiting two headers in either order gives one target, if they are of different kinds or names, or their
      values commute. */
  lemma ExtendsCommute(h: Header, t: User, a: string, b: string)
    requires a in h && b in h && h[a] != [] && h[b] != []
    requires Lower(a) == Lower(b) ==> Commuting(h, a, b)
    ensures Extend(Extend(t, h, a), h, b) == Extend(Extend(t, h, b), h, a)
  {
    Laws.KindsAreDisjoint(a);
    Laws.KindsAreDisjoint(b);
    if Lower(a) == Lower(b) {
      SameKind(a, b);
      if Lower(a) == "impersonate-group" {
        assert (t.groups + h[a]) + h[b] == t.groups + (h[a] + h[b]);
        assert (t.groups + h[b]) + h[a] == t.groups + (h[b] + h[a]);
      } else if IsExtra(a) {
        ExtrasOfOneName(t.extra, ExtraName(a), h[a], h[b]);
        ExtrasOfOneName(t.extra, ExtraName(a), h[b], h[a]);
      }
    } else if IsExtra(a) && IsExtra(b) {
      OtherName(a, b);
      var x := AppendExtra(AppendExtra(t.extra, ExtraName(a), h[a]), ExtraName(b), h[b]);
      assert x == AppendExtra(AppendExtra(t.extra, ExtraName(b), h[b]), ExtraName(a), h[a]);
    }
  }

  /** Two headers of one name whose values do not commute: visiting them last shows which came first. */
  lemma ExtendsDisagree(h: Header, t: User, a: string, b: string)
    requires a in h && b in h && h[a] != [] && h[b] != []
    requires Lower(a) == Lower(b) && !Commuting(h, a, b)
    ensures Extend(Extend(t, h, a), h, b) != Extend(Extend(t, h, b), h, a)
  {
    Laws.KindsAreDisjoint(a);
    Laws.KindsAreDisjoint(b);
    SameKind(a, b);
    var ab, ba := Extend(Extend(t, h, a), h, b), Extend(Extend(t, h, b), h, a);
    if Lower(a) == "impersonate-group" {
      SuffixesDiffer(t.groups, h[a] + h[b], h[b] + h[a]);
      assert ab.groups == t.groups + (h[a] + h[b]) && ba.groups == t.groups + (h[b] + h[a]);
    } else if IsExtra(a) {
      var name := ExtraName(a);
      var prior := if name in t.extra then t.extra[name] else [];
      ExtrasOfOneName(t.extra, name, h[a], h[b]);
      ExtrasOfOneName(t.extra, name, h[b], h[a]);
      SuffixesDiffer(prior, h[a] + h[b], h[b] + h[a]);
      assert ab.extra[name] == prior + (h[a] + h[b]) && ba.extra[name] == prior + (h[b] + h[a]);
    }
  }

  lemma SuffixesDiffer(prior: seq<string>, x: seq<string>, y: seq<string>)
    requires x != y
    ensures prior + x != prior + y
  {
    assert (prior + x)[|prior|..] == x && (prior + y)[|prior|..] == y;
  }

  // ---- From two headers to a whole order ----

  ghost predicate Visits(h: Header, keys: seq<string>) {
    && (forall k :: k in keys ==> k in h && h[k] != [])
    && (forall i, j :: 0 <= i < j < |keys| ==> keys[i] != keys[j])
  }

  lemma VisitsWithout(h: Header, keys: seq<string>, i: nat)
    requires Visits(h, keys) && i < |keys|
    ensures Visits(h, keys[..i] + keys[i + 1..]) && keys[i] !in keys[..i] + keys[i + 1..]
  {
    var rest := keys[..i] + keys[i + 1..];
    forall j | 0 <= j < |rest|
      ensures rest[j] == if j < i then keys[j] else keys[j + 1]
    {
    }
  }

  /** A header may be visited last instead of where it stands. */
  lemma {:induction false} VisitLast(h: Header, keys: seq<string>, i: nat)
    requires NonEmptyLists(h) && AllCommute(h) && Visits(h, keys) && i < |keys|
    ensures Visits(h, keys[..i] + keys[i + 1..])
    ensures TargetOf(h, keys) == Extend(TargetOf(h, keys[..i] + keys[i + 1..]), h, keys[i])
  {
    var n := |keys| - 1;
    VisitsWithout(h, keys, i);
    if i == n {
      assert keys[..i] + keys[i + 1..] == keys[..n];
    } else {
      Laws.WithoutOne(keys, i);
      var shorter := keys[..n][..i] + keys[..n][i + 1..];
      VisitLast(h, keys[..n], i);
      ExtendsCommute(h, TargetOf(h, shorter), keys[i], keys[n]);
    }
  }

  lemma {:induction false} OrdersAgree(h: Header, a: seq<string>, b: seq<string>)
    requires NonEmptyLists(h) && AllCommute(h) && Visits(h, a) && Visits(h, b) && multiset(a) == multiset(b)
    ensures TargetOf(h, a) == TargetOf(h, b)
  {
    if a == [] {
      assert |multiset(b)| == 0;
    } else {
      var n := |a| - 1;
      assert a[n] in multiset(b);
      var i :| 0 <= i < |b| && b[i] == a[n];
      VisitLast(h, b, i);
      Laws.MultisetWithout(a, n);
      Laws.MultisetWithout(b, i);
      assert a[..n] + a[n + 1..] == a[..n];
      OrdersAgree(h, a[..n], b[..i] + b[i + 1..]);
    }
  }

  lemma {:induction false} SomeOrder(keys: set<string>) returns (order: seq<string>)
    ensures forall k :: k in order <==> k in keys
    ensures forall i, j :: 0 <= i < j < |order| ==> order[i] != order[j]
  {
    if keys == {} {
      order := [];
    } else {
      var k :| k in keys;
      var rest := SomeOrder(keys - {k});
      order := rest + [k];
    }
  }

  lemma LastTwo(h: Header, rest: seq<string>, a: string, b: string)
    requires NonEmptyLists(h) && a in h && b in h && a != b
    requires forall k :: k in rest <==> k in h && k != a && k != b
    requires forall i, j :: 0 <= i < j < |rest| ==> rest[i] != rest[j]
    ensures IsOrder(h, rest + [a] + [b])
  {
    var order := rest + [a] + [b];
    forall k
      ensures k in order <==> k in h
    {
      assert k in order <==> k in rest || k == a || k == b;
    }
    forall i, j | 0 <= i < j < |order|
      ensures order[i] != order[j]
    {
      assert i < |rest| ==> order[i] in rest;
    }
  }

  lemma TargetOfLastTwo(h: Header, rest: seq<string>, a: string, b: string)
    requires NonEmptyLists(h) && a in h && b in h && forall k :: k in rest ==> k in h
    ensures TargetOf(h, rest + [a] + [b]) == Extend(Extend(TargetOf(h, rest), h, a), h, b)
  {
    assert (rest + [a] + [b])[..|rest| + 1] == rest + [a] && (rest + [a])[..|rest|] == rest;
  }

  /** Two orders that differ in their last two headers only. */
  lemma TwoOrders(h: Header, a: string, b: string) returns (ab: seq<string>, ba: seq<string>)
    requires NonEmptyLists(h) && a in h && b in h && a != b
    requires Lower(a) == Lower(b) && !Commuting(h, a, b)
    ensures IsOrder(h, ab) && IsOrder(h, ba) && TargetOf(h, ab) != TargetOf(h, ba)
  {
    var rest := SomeOrder(h.Keys - {a, b});
    ab, ba := rest + [a] + [b], rest + [b] + [a];
    LastTwo(h, rest, a, b);
    LastTwo(h, rest, b, a);
    TargetOfLastTwo(h, rest, a, b);
    TargetOfLastTwo(h, rest, b, a);
    ExtendsDisagree(h, TargetOf(h, rest), a, b);
  }

  /** Every order gives the same target if and only if every two headers that agree after lower-casing contribute
      values whose order does not matter. */
  lemma TargetIsOrderFreeExactlyWhen(h: Header)
    requires NonEmptyLists(h)
    ensures (forall a, b :: IsOrder(h, a) && IsOrder(h, b) ==> TargetOf(h, a) == TargetOf(h, b)) <==> AllCommute(h)
  {
    if AllCommute(h) {
      forall a, b | IsOrder(h, a) && IsOrder(h, b)
        ensures TargetOf(h, a) == TargetOf(h, b)
      {
        Laws.OrdersArePermutations(h, a, b);
        OrdersAgree(h, a, b);
      }
    } else {
      var x, y :| x in h && y in h && x != y && Lower(x) == Lower(y) && !Commuting(h, x, y);
      var a, b := TwoOrders(h, x, y);
    }
  }

  /** The headers net/http hands over always do: no two of them agree after lower-casing. */
  lemma ServerHeadersCommute(h: Header)
    requires FromServer(h)
    ensures NonEmptyLists(h) && AllCommute(h)
  {
    forall a, b | a in h && b in h && a != b
      ensures Lower(a) != Lower(b)
    {
      if Lower(a) == Lower(b) {
        CanonicalKeysStayDistinct(h, a, b);
      }
    }
  }

  /** And no extra name among them holds a slash. */
  lemma ServerExtraNamesHoldNoSlash(key: string)
    requires IsToken(key) && IsExtra(key)
    ensures '/' !in ExtraName(key)
  {
    forall i | 0 <= i < |ExtraName(key)|
      ensures ExtraName(key)[i] != '/'
    {
      assert IsTokenChar(key[|EXTRA_PREFIX| + i]);
      assert ExtraName(key)[i] == LowerChar(key[|EXTRA_PREFIX| + i]);
    }
  }

  /** The resource of a question about a server header, and that an extra one holds no slash. */
  lemma ServerQuestionsAreReviewable(h: Header, k: string, ask: Ask)
    requires FromServer(h) && k in h && Laws.AsksIn(h, k, ask)
    ensures IsReviewResource(ask.resource)
    ensures EXTRA_RESOURCE <= ask.resource ==> '/' !in ExtraNameIn(ask.resource)
  {
    var item :| item in Items(h, k) && item.Question? && item.ask == ask;
    if IsExtra(k) {
      ServerExtraNamesHoldNoSlash(k);
      Laws.KindsAreDisjoint(k);
      assert ask.resource == EXTRA_RESOURCE + ExtraName(k);
      assert ask.resource[|EXTRA_RESOURCE|..] == ExtraName(k);
    } else {
      assert ask.resource in {"users", "groups", "uids"};
      assert |ask.resource| < |EXTRA_RESOURCE|;
    }
  }

  /** For headers net/http hands over, equal reviews are equal questions: of one requester, about one resource and
      one value. So whatever shares a review, a cache entry or a flight asks the same thing. */
  lemma ServerReviewsAreQuestions(
    h1: Header, k1: string, ask1: Ask, q1: User, h2: Header, k2: string, ask2: Ask, q2: User)
    requires FromServer(h1) && k1 in h1 && Laws.AsksIn(h1, k1, ask1)
    requires FromServer(h2) && k2 in h2 && Laws.AsksIn(h2, k2, ask2)
    ensures ImpersonationReviewSpec(ask1.resource, ask1.name, q1) == ImpersonationReviewSpec(ask2.resource, ask2.name, q2)
      <==> ask1 == ask2 && q1 == q2
  {
    ServerQuestionsAreReviewable(h1, k1, ask1);
    ServerQuestionsAreReviewable(h2, k2, ask2);
    SpecsAgreeExactlyWhen(ask1.resource, ask1.name, q1, ask2.resource, ask2.name, q2);
    if SameResource(ask1.resource, ask2.resource) {
      SlashFreeNamesAreFaithful(ask1.resource, ask2.resource);
    }
  }
}
