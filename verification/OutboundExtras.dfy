/** The extras of an impersonating call as the API server reads them. Each leaves as a header named after its key,
    and header names that differ only in case are one header: the values of all such keys arrive together, in the
    order the map of extras happens to be iterated. */
module OutboundExtras {
  import opened Strings
  import opened ReviewSpec
  import Auth = Authorizer
  import Laws = AuthorizerLaws
  import opened Headers
  import opened Pipeline
  import opened PipelineTheorems
  import opened PipelineResults

  /** The values received under a key. */
  function Received(e: Extra, order: seq<string>, k: string): seq<string> {
    if order == [] then []
    else
      var last := order[|order| - 1];
      Received(e, order[..|order| - 1], k) + if Lower(last) == Lower(k) then At(e, last) else []
  }

  /** Those that come from another spelling of the key. */
  function OfOtherKeys(e: Extra, order: seq<string>, k: string): seq<string> {
    if order == [] then []
    else
      var last := order[|order| - 1];
      OfOtherKeys(e, order[..|order| - 1], k) + if last != k && Lower(last) == Lower(k) then At(e, last) else []
  }

  lemma Append(e: Extra, front: seq<string>, last: string, k: string)
    ensures Received(e, front + [last], k)
      == Received(e, front, k) + if Lower(last) == Lower(k) then At(e, last) else []
    ensures OfOtherKeys(e, front + [last], k)
      == OfOtherKeys(e, front, k) + if last != k && Lower(last) == Lower(k) then At(e, last) else []
  {
    assert (front + [last])[..|front|] == front;
  }

  lemma {:induction false} ReceivedSplits(e: Extra, order: seq<string>, k: string)
    requires forall i, j :: 0 <= i < j < |order| ==> order[i] != order[j]
    ensures multiset(Received(e, order, k))
      == multiset(if k in order then At(e, k) else []) + multiset(OfOtherKeys(e, order, k))
  {
    if order != [] {
      var front, last := order[..|order| - 1], order[|order| - 1];
      assert order == front + [last];
      ReceivedSplits(e, front, k);
      Append(e, front, last, k);
      if last == k {
        assert k !in front && k in order;
      } else {
        assert k in order <==> k in front;
      }
    }
  }

  /** No other spelling of a key has values. */
  ghost predicate NoOtherKey(e: Extra, k: string) {
    forall x :: x in e && x != k && Lower(x) == Lower(k) ==> e[x] == []
  }

  predicate IsOther(e: Extra, x: string, k: string) {
    x != k && Lower(x) == Lower(k) && At(e, x) != []
  }

  lemma {:induction false} OthersAre(e: Extra, order: seq<string>, k: string)
    ensures OfOtherKeys(e, order, k) == [] <==> forall x :: x in order ==> !IsOther(e, x, k)
  {
    if order != [] {
      var front, last := order[..|order| - 1], order[|order| - 1];
      assert order == front + [last];
      OthersAre(e, front, k);
      Append(e, front, last, k);
      assert OfOtherKeys(e, order, k) == [] <==> OfOtherKeys(e, front, k) == [] && !IsOther(e, last, k);
    }
  }

  /** What arrives under a key is what its own spelling carries and what the others do. */
  lemma ReceivedIs(e: Extra, order: seq<string>, k: string)
    requires Auth.IsOrder(e, order)
    ensures multiset(Received(e, order, k)) == multiset(At(e, k)) + multiset(OfOtherKeys(e, order, k))
    ensures OfOtherKeys(e, order, k) == [] <==> NoOtherKey(e, k)
  {
    ReceivedSplits(e, order, k);
    OthersAre(e, order, k);
    if NoOtherKey(e, k) {
      forall x | x in order
        ensures !IsOther(e, x, k)
      {
        assert x in e;
      }
    } else {
      var x :| x in e && x != k && Lower(x) == Lower(k) && e[x] != [];
      assert x in order && IsOther(e, x, k);
    }
  }

  lemma EmptyMultiset(s: seq<string>, t: multiset<string>)
    ensures multiset(s) + t == t <==> s == []
  {
    if s != [] {
      assert (multiset(s) + t)[s[0]] > t[s[0]];
    }
  }

  // ---- The reserved keys ----

  lemma ReservedAreLower(k: string)
    requires IsOriginalKey(k)
    ensures Lower(k) == k && |k| > |CLIENT_IP_KEY|
  {
    LowerUser();
    LowerGroups();
    LowerUID();
    LowerExtra();
    assert |CLIENT_IP_KEY| == 16;
    assert |ORIGINAL_USER| == 29 && |ORIGINAL_GROUPS| == 31 && |ORIGINAL_UID| == 28 && |ORIGINAL_EXTRA| == 30;
  }

  lemma LowerUser()
    ensures Lower(ORIGINAL_USER) == ORIGINAL_USER
  {
  }

  lemma LowerGroups()
    ensures Lower(ORIGINAL_GROUPS) == ORIGINAL_GROUPS
  {
  }

  lemma LowerUID()
    ensures Lower(ORIGINAL_UID) == ORIGINAL_UID
  {
  }

  lemma LowerExtra()
    ensures Lower(ORIGINAL_EXTRA) == ORIGINAL_EXTRA
  {
  }

  /** Another spelling of a reserved key carries what target and operator put there. */
  lemma OtherSpellingOfReserved(
    c: Config, w: World, target: User, user: User, ip: string, k: string, x: string)
    requires IsOriginalKey(k) && x != k && Lower(x) == Lower(k) && (user.extra != map[] ==> w.encoded.Some?)
    ensures At(OutboundExtra(c, w, target, user, true, ip), x) == At(target.extra, x) + At(c.extraHeaders, x)
  {
    ReservedAreLower(k);
    assert |x| == |Lower(x)| == |k|;
    if IsOriginalKey(x) {
      ReservedAreLower(x);
    }
    ExtrasAt(c, w, target, user, true, ip, x);
    assert At(target.extra, x) + [] + At(c.extraHeaders, x) == At(target.extra, x) + At(c.extraHeaders, x);
  }

  lemma OutboundHasKeys(c: Config, w: World, identity: User, user: User, impersonated: bool, ip: string, x: string)
    ensures x in identity.extra || x in c.extraHeaders ==> x in OutboundExtra(c, w, identity, user, impersonated, ip)
  {
  }

  lemma NoOtherSpellingOfReserved(c: Config, w: World, target: User, user: User, ip: string, k: string)
    requires IsOriginalKey(k) && (user.extra != map[] ==> w.encoded.Some?)
    ensures NoOtherKey(OutboundExtra(c, w, target, user, true, ip), k)
      <==> NoOtherKey(target.extra, k) && NoOtherKey(c.extraHeaders, k)
  {
    var out := OutboundExtra(c, w, target, user, true, ip);
    forall x | x != k && Lower(x) == Lower(k)
      ensures At(out, x) == At(target.extra, x) + At(c.extraHeaders, x)
      ensures x in target.extra || x in c.extraHeaders ==> x in out
    {
      OtherSpellingOfReserved(c, w, target, user, ip, k, x);
      OutboundHasKeys(c, w, target, user, true, ip, x);
    }
    if NoOtherKey(target.extra, k) && NoOtherKey(c.extraHeaders, k) {
      forall x | x in out && x != k && Lower(x) == Lower(k)
        ensures out[x] == []
      {
        assert At(out, x) == At(target.extra, x) + At(c.extraHeaders, x);
      }
    }
    if NoOtherKey(out, k) {
      forall x | x != k && Lower(x) == Lower(k)
        ensures At(target.extra, x) == [] && At(c.extraHeaders, x) == []
      {
        assert At(out, x) == At(target.extra, x) + At(c.extraHeaders, x);
        assert x in out ==> out[x] == [];
      }
    }
  }

  /** Under a reserved key the API server receives the requester's values of an impersonating call, and nothing
      else, if and only if no other spelling of the key has values from target or operator, and the requester has
      some or neither of them supplies the key itself. */
  lemma ReservedHeadersHoldTheRequesterExactlyWhen(
    c: Config, w: World, r: Request, i: nat, k: string, order: seq<string>)
    requires Enters(c, w, r) && FromServer(r.headers) && IsOriginalKey(k)
    requires i < |Left(c, w, r).events| && Left(c, w, r).events[i].UpstreamCall?
    requires Left(c, w, r).events[i].carrier.ClientTransport?
    requires TargetOf(Authenticate(c, w, r)).Some?
    requires Auth.IsOrder(Left(c, w, r).events[i].carrier.config.extra, order)
    ensures w.authentication.Accepted?
    ensures var target := TargetOf(Authenticate(c, w, r)).value;
      var requester := RequesterValues(w, w.authentication.user, k);
      multiset(Received(Left(c, w, r).events[i].carrier.config.extra, order, k)) == multiset(requester)
      <==> NoOtherKey(target.extra, k) && NoOtherKey(c.extraHeaders, k)
           && (requester != [] || At(target.extra, k) + At(c.extraHeaders, k) == [])
  {
    IdentityIsJustified(c, w, r, i);
    AdmittedEncodes(c, w, r);
    ReservedReceived(
      c, w, TargetOf(Authenticate(c, w, r)).value, w.authentication.user, SourceIP(r), k, order);
  }

  lemma ReservedReceived(
    c: Config, w: World, target: User, user: User, ip: string, k: string, order: seq<string>)
    requires IsOriginalKey(k) && (user.extra != map[] ==> w.encoded.Some?)
    requires Auth.IsOrder(OutboundExtra(c, w, target, user, true, ip), order)
    ensures var requester := RequesterValues(w, user, k);
      multiset(Received(OutboundExtra(c, w, target, user, true, ip), order, k)) == multiset(requester)
      <==> NoOtherKey(target.extra, k) && NoOtherKey(c.extraHeaders, k)
           && (requester != [] || At(target.extra, k) + At(c.extraHeaders, k) == [])
  {
    var out := OutboundExtra(c, w, target, user, true, ip);
    var requester := RequesterValues(w, user, k);
    ReceivedIs(out, order, k);
    ReservedValues(c, w, target, user, ip, k);
    NoOtherSpellingOfReserved(c, w, target, user, ip, k);
    var others := OfOtherKeys(out, order, k);
    EmptyMultiset(others, multiset(At(out, k)));
    if requester == [] && At(out, k) != [] {
      assert (multiset(At(out, k)) + multiset(others))[At(out, k)[0]] > 0;
    }
  }

  // ---- The client address ----

  /** No spelling of a key has values. */
  ghost predicate NoValues(e: Extra, k: string) {
    forall x :: x in e && Lower(x) == Lower(k) ==> e[x] == []
  }

  lemma OtherSpellingOfClientIP(
    c: Config, w: World, identity: User, user: User, impersonated: bool, ip: string, x: string)
    requires Lower(x) == Lower(CLIENT_IP_KEY) && (impersonated && user.extra != map[] ==> w.encoded.Some?)
    ensures At(OutboundExtra(c, w, identity, user, impersonated, ip), x)
      == At(identity.extra, x) + (if c.clientIPExtra && x == CLIENT_IP_KEY then [ip] else []) + At(c.extraHeaders, x)
  {
    assert |x| == |Lower(x)| == |Lower(CLIENT_IP_KEY)| == 16;
    if IsOriginalKey(x) {
      ReservedAreLower(x);
    }
    ExtrasAt(c, w, identity, user, impersonated, ip, x);
  }

  lemma NoOtherSpellingOfClientIP(
    c: Config, w: World, identity: User, user: User, impersonated: bool, ip: string)
    requires impersonated && user.extra != map[] ==> w.encoded.Some?
    ensures NoOtherKey(OutboundExtra(c, w, identity, user, impersonated, ip), CLIENT_IP_KEY)
      <==> NoOtherKey(identity.extra, CLIENT_IP_KEY) && NoOtherKey(c.extraHeaders, CLIENT_IP_KEY)
  {
    var k, out := CLIENT_IP_KEY, OutboundExtra(c, w, identity, user, impersonated, ip);
    forall x | x != k && Lower(x) == Lower(k)
      ensures At(out, x) == At(identity.extra, x) + At(c.extraHeaders, x)
      ensures x in identity.extra || x in c.extraHeaders ==> x in out
    {
      OtherSpellingOfClientIP(c, w, identity, user, impersonated, ip, x);
      assert At(identity.extra, x) + [] + At(c.extraHeaders, x) == At(identity.extra, x) + At(c.extraHeaders, x);
      OutboundHasKeys(c, w, identity, user, impersonated, ip, x);
    }
    if NoOtherKey(identity.extra, k) && NoOtherKey(c.extraHeaders, k) {
      forall x | x in out && x != k && Lower(x) == Lower(k)
        ensures out[x] == []
      {
        assert At(out, x) == At(identity.extra, x) + At(c.extraHeaders, x);
      }
    }
    if NoOtherKey(out, k) {
      forall x | x != k && Lower(x) == Lower(k)
        ensures At(identity.extra, x) == [] && At(c.extraHeaders, x) == []
      {
        assert At(out, x) == At(identity.extra, x) + At(c.extraHeaders, x);
        assert x in out ==> out[x] == [];
      }
    }
  }

  lemma NoValuesSplits(e: Extra, k: string)
    ensures NoValues(e, k) <==> NoOtherKey(e, k) && At(e, k) == []
  {
  }

  /** Under the client-address key the API server always receives the address the proxy resolved, and nothing else
      if and only if neither the identity nor the operator has values under any spelling of that key. */
  lemma ClientIPReceived(
    c: Config, w: World, identity: User, user: User, impersonated: bool, ip: string, order: seq<string>)
    requires c.clientIPExtra && (impersonated && user.extra != map[] ==> w.encoded.Some?)
    requires Auth.IsOrder(OutboundExtra(c, w, identity, user, impersonated, ip), order)
    ensures var received := multiset(Received(
        OutboundExtra(c, w, identity, user, impersonated, ip), order, CLIENT_IP_KEY));
      && ip in received
      && (|received| == 1 <==> NoValues(identity.extra, CLIENT_IP_KEY) && NoValues(c.extraHeaders, CLIENT_IP_KEY))
      && (|received| == 1 ==> received == multiset{ip})
  {
    var k, out := CLIENT_IP_KEY, OutboundExtra(c, w, identity, user, impersonated, ip);
    ReceivedIs(out, order, k);
    OtherSpellingOfClientIP(c, w, identity, user, impersonated, ip, k);
    NoOtherSpellingOfClientIP(c, w, identity, user, impersonated, ip);
    NoValuesSplits(identity.extra, k);
    NoValuesSplits(c.extraHeaders, k);
    LoneValue(At(identity.extra, k), ip, At(c.extraHeaders, k), OfOtherKeys(out, order, k));
  }

  lemma LoneValue(before: seq<string>, v: string, after: seq<string>, others: seq<string>)
    ensures var received := multiset(before + [v] + after) + multiset(others);
      && v in received
      && (|received| == 1 <==> before == [] && after == [] && others == [])
      && (|received| == 1 ==> received == multiset{v})
  {
    var own := before + [v] + after;
    assert own[|before|] == v;
    assert |multiset(own) + multiset(others)| == |own| + |others|;
    if |own| + |others| == 1 {
      assert own == [v] && others == [];
    }
  }
}
