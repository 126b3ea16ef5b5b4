/** The question put to the API server for one impersonation value, and its resource naming. */
module ReviewSpec {
  import opened Strings

  /** user.Info */
  datatype User = User(name: string, uid: string, groups: seq<string>, extra: map<string, seq<string>>)

  datatype Attributes = Attributes(
    verb: string, group: string, resource: string, subresource: string, name: string)

  /** v1.SubjectAccessReviewSpec */
  datatype Spec = Spec(
    user: string, uid: string, groups: seq<string>, extra: map<string, seq<string>>,
    attributes: Attributes)

  const AUTHENTICATION_GROUP := "authentication.k8s.io"
  const EXTRA_RESOURCE := "userextras/"

  /** The API group, resource and subresource a resource name stands for. */
  function Target(resource: string): (string, string, string) {
    var pieces := SplitOn(resource, '/');
    var split := |pieces| > 1 && pieces[0] != "";  // a slash at an index above zero
    var res := if split then pieces[0] else resource;
    var sub := if split then pieces[1] else "";
    (if split || res == "uids" then AUTHENTICATION_GROUP else "", res, sub)
  }

  function ImpersonationReviewSpec(resource: string, name: string, requester: User): Spec {
    var (group, res, sub) := Target(resource);
    Spec(requester.name, requester.uid, requester.groups, requester.extra,
         Attributes("impersonate", group, res, sub, name))
  }

  /** The resource names the authorizer uses: three fixed ones and one per extra name. */
  predicate IsReviewResource(resource: string) {
    resource in {"users", "groups", "uids"} || EXTRA_RESOURCE <= resource
  }

  /** A name without a slash is its own resource. */
  lemma PlainTarget(resource: string)
    requires '/' !in resource
    ensures Target(resource) == (if resource == "uids" then AUTHENTICATION_GROUP else "", resource, "")
  {
    SplitNoSeparator(resource, '/');
  }

  /** An extra name becomes a subresource, up to its first slash. */
  lemma ExtraTarget(extraName: string)
    ensures Target(EXTRA_RESOURCE + extraName)
         == (AUTHENTICATION_GROUP, "userextras", SplitOn(extraName, '/')[0])
  {
    var head := "userextras";
    assert '/' !in head;
    SplitNoSeparator(head, '/');
    SplitConcat(head, '/', extraName);
    assert head + ['/'] == EXTRA_RESOURCE;
    assert SplitOn(EXTRA_RESOURCE + extraName, '/') == [head] + SplitOn(extraName, '/');
  }

  /** The part of an extra name up to its first slash. */
  predicate UpToSlash(sub: string, extraName: string) {
    sub <= extraName && '/' !in sub && (|sub| < |extraName| ==> extraName[|sub|] == '/')
  }

  lemma {:induction false} FirstPiece(extraName: string)
    ensures UpToSlash(SplitOn(extraName, '/')[0], extraName)
  {
    if extraName != "" && extraName[0] != '/' {
      FirstPiece(extraName[1..]);
      var sub := SplitOn(extraName[1..], '/')[0];
      assert SplitOn(extraName, '/')[0] == [extraName[0]] + sub;
    }
  }

  /** The name behind the prefix of an extra resource. */
  function ExtraNameIn(r: string): string
    requires EXTRA_RESOURCE <= r
  {
    r[|EXTRA_RESOURCE|..]
  }

  /** Whether two resource names stand for one resource: extra names do up to their first slash. */
  predicate SameResource(r1: string, r2: string) {
    r1 == r2
    || (EXTRA_RESOURCE <= r1 && EXTRA_RESOURCE <= r2
        && SplitOn(ExtraNameIn(r1), '/')[0] == SplitOn(ExtraNameIn(r2), '/')[0])
  }

  /** The resource a question is about, in the API server's terms. */
  predicate IsAbout(a: Attributes, resource: string) {
    if resource == "users" || resource == "groups" then
      a.group == "" && a.resource == resource && a.subresource == ""
    else if resource == "uids" then
      a.group == "authentication.k8s.io" && a.resource == "uids" && a.subresource == ""
    else
      EXTRA_RESOURCE <= resource && a.group == "authentication.k8s.io" && a.resource == "userextras"
      && UpToSlash(a.subresource, ExtraNameIn(resource))
  }

  /** A review of whether the requester, with the uid, groups and extra it authenticated with, may impersonate the
      named user, group, uid or extra value. */
  predicate AsksToImpersonate(spec: Spec, requester: User, resource: string, name: string) {
    && spec.user == requester.name && spec.uid == requester.uid
    && spec.groups == requester.groups && spec.extra == requester.extra
    && spec.attributes.verb == "impersonate" && spec.attributes.name == name
    && IsAbout(spec.attributes, resource)
  }

  /** Field by field, the review put to the API server asks whether the requester may impersonate that value, and it
      is the only one that does. */
  lemma ReviewAsksToImpersonate(spec: Spec, requester: User, resource: string, name: string)
    requires IsReviewResource(resource)
    ensures spec == ImpersonationReviewSpec(resource, name, requester)
      <==> AsksToImpersonate(spec, requester, resource, name)
  {
    if EXTRA_RESOURCE <= resource {
      var x := ExtraNameIn(resource);
      assert resource == EXTRA_RESOURCE + x && resource[4] == 'e';
      ExtraTarget(x);
      FirstPiece(x);
    } else {
      PlainTarget(resource);
    }
  }

  lemma TargetsAgreeExactlyWhen(r1: string, r2: string)
    requires IsReviewResource(r1) && IsReviewResource(r2)
    ensures Target(r1) == Target(r2) <==> SameResource(r1, r2)
  {
    if EXTRA_RESOURCE <= r1 {
      ExtraTarget(ExtraNameIn(r1));
      assert r1 == EXTRA_RESOURCE + ExtraNameIn(r1);
    } else {
      PlainTarget(r1);
      assert |r1| < |"userextras"|;
    }
    if EXTRA_RESOURCE <= r2 {
      ExtraTarget(ExtraNameIn(r2));
      assert r2 == EXTRA_RESOURCE + ExtraNameIn(r2);
    } else {
      PlainTarget(r2);
      assert |r2| < |"userextras"|;
    }
  }

  /** Two questions are the same review if and only if requester and value agree and the resources are equal, or
      are extra names that agree up to their first slash. */
  lemma SpecsAgreeExactlyWhen(r1: string, n1: string, q1: User, r2: string, n2: string, q2: User)
    requires IsReviewResource(r1) && IsReviewResource(r2)
    ensures ImpersonationReviewSpec(r1, n1, q1) == ImpersonationReviewSpec(r2, n2, q2)
      <==> SameResource(r1, r2) && n1 == n2 && q1 == q2
  {
    TargetsAgreeExactlyWhen(r1, r2);
  }

  /** Without slashes, so for every name net/http delivers, equal reviews are equal questions. */
  lemma SlashFreeNamesAreFaithful(r1: string, r2: string)
    requires SameResource(r1, r2)
    requires EXTRA_RESOURCE <= r1 ==> '/' !in ExtraNameIn(r1)
    requires EXTRA_RESOURCE <= r2 ==> '/' !in ExtraNameIn(r2)
    ensures r1 == r2
  {
    if EXTRA_RESOURCE <= r1 && EXTRA_RESOURCE <= r2 {
      SplitNoSeparator(ExtraNameIn(r1), '/');
      SplitNoSeparator(ExtraNameIn(r2), '/');
      assert r1 == EXTRA_RESOURCE + ExtraNameIn(r1) && r2 == EXTRA_RESOURCE + ExtraNameIn(r2);
    }
  }
}
