/** net/http's header map: canonical lookup, and the two operations that canonicalise the key they are given. */
module Headers {
  import opened Strings

  type Header = map<string, seq<string>>

  predicate IsTokenChar(c: char) {
    || 'a' <= c <= 'z' || 'A' <= c <= 'Z' || '0' <= c <= '9'
    || c in "!#$%&'*+-.^_`|~"
  }

  predicate IsToken(s: string) {
    forall i :: 0 <= i < |s| ==> IsTokenChar(s[i])
  }

  /** Position i of a canonical key: upper case at the start and after a hyphen, lower case elsewhere. */
  function CanonicalChar(s: string, i: nat): char
    requires i < |s|
  {
    if i == 0 || s[i - 1] == '-' then UpperChar(s[i]) else LowerChar(s[i])
  }

  /** http.CanonicalHeaderKey: a key holding a byte no header name may hold is left as it is. */
  function CanonicalKey(s: string): string {
    if IsToken(s) then seq(|s|, i requires 0 <= i < |s| => CanonicalChar(s, i)) else s
  }

  /** Header.Values: the list stored under the canonical form of the key. */
  function Values(h: Header, key: string): seq<string> {
    var k := CanonicalKey(key);
    if k in h then h[k] else []
  }

  /** Header.Get: the first value, or the empty string. */
  function Get(h: Header, key: string): string {
    var vs := Values(h, key);
    if vs == [] then "" else vs[0]
  }

  /** Header.Add. */
  function Add(h: Header, key: string, value: string): Header {
    h[CanonicalKey(key) := Values(h, key) + [value]]
  }

  /** Header.Del. */
  function Del(h: Header, key: string): Header {
    h - {CanonicalKey(key)}
  }

  /** Header.Set. */
  function Set(h: Header, key: string, value: string): Header {
    h[CanonicalKey(key) := [value]]
  }

  /** What net/http hands a handler: canonical token keys, each with at least one value. */
  predicate FromServer(h: Header) {
    forall k :: k in h ==> IsToken(k) && CanonicalKey(k) == k && h[k] != []
  }

  lemma SameLetter(a: char, b: char)
    requires LowerChar(a) == LowerChar(b)
    ensures UpperChar(a) == UpperChar(b)
    ensures a == '-' <==> b == '-'
  {
    if 'A' <= a <= 'Z' && 'A' <= b <= 'Z' {
      assert (a as int + 32) as char as int == (b as int + 32) as char as int;
    } else if 'A' <= a <= 'Z' {
      assert UpperChar(b) == (a as int + 32 - 32) as char;
    } else if 'A' <= b <= 'Z' {
      assert UpperChar(a) == (b as int + 32 - 32) as char;
    }
  }

  /** Two keys that agree after lower-casing agree at every position of their canonical form. */
  lemma SameCanonicalChar(a: string, b: string, i: nat)
    requires Lower(a) == Lower(b) && i < |a|
    ensures |a| == |b| && CanonicalChar(a, i) == CanonicalChar(b, i)
  {
    assert |Lower(a)| == |Lower(b)|;
    assert Lower(a)[i] == LowerChar(a[i]) && Lower(b)[i] == LowerChar(b[i]);
    SameLetter(a[i], b[i]);
    if i > 0 {
      assert Lower(a)[i - 1] == LowerChar(a[i - 1]) && Lower(b)[i - 1] == LowerChar(b[i - 1]);
      SameLetter(a[i - 1], b[i - 1]);
    }
  }

  /** Two tokens that agree after lower-casing have the same canonical form. */
  lemma LowerDeterminesCanonical(a: string, b: string)
    requires IsToken(a) && IsToken(b) && Lower(a) == Lower(b)
    ensures CanonicalKey(a) == CanonicalKey(b)
  {
    forall i: nat | i < |a|
      ensures |a| == |b| && CanonicalChar(a, i) == CanonicalChar(b, i)
    {
      SameCanonicalChar(a, b, i);
    }
    assert |Lower(a)| == |Lower(b)|;
  }

  /** So canonical header keys stay distinct after lower-casing. */
  lemma CanonicalKeysStayDistinct(h: Header, a: string, b: string)
    requires FromServer(h) && a in h && b in h && Lower(a) == Lower(b)
    ensures a == b
  {
    LowerDeterminesCanonical(a, b);
  }

  /** Canonicalising twice is canonicalising once. */
  lemma CanonicalKeyIsIdempotent(s: string)
    ensures CanonicalKey(CanonicalKey(s)) == CanonicalKey(s)
  {
    if IsToken(s) {
      var c := CanonicalKey(s);
      assert IsToken(c);
      forall i | 0 <= i < |s|
        ensures CanonicalChar(c, i) == c[i]
      {
        if i > 0 {
          assert c[i - 1] == '-' <==> s[i - 1] == '-';
        }
      }
    }
  }
}
