/** The TokenReview cache: its length-prefixed key, and a cache that only ever holds definitive answers. */
module TokenCache {
  import opened Strings
  import opened Errors
  import opened ExpiringCache

  type Byte = b: int | 0 <= b < 256
  type Bytes = seq<Byte>

  // ---- The byte stream fed to the keyed hash ----

  function Power256(k: nat): nat {
    if k == 0 then 1 else 256 * Power256(k - 1)
  }

  /** binary.BigEndian.PutUint64, for any width: the low k bytes of n, most significant first. */
  function BigEndian(n: nat, k: nat): (r: Bytes)
    ensures |r| == k
  {
    if k == 0 then [] else BigEndian(n / 256, k - 1) + [n % 256]
  }

  function Number(bytes: Bytes): nat {
    if bytes == [] then 0 else 256 * Number(bytes[..|bytes| - 1]) + bytes[|bytes| - 1]
  }

  lemma {:induction false} NumberOfBigEndian(n: nat, k: nat)
    requires n < Power256(k)
    ensures Number(BigEndian(n, k)) == n
  {
    if k > 0 {
      NumberOfBigEndian(n / 256, k - 1);
      assert BigEndian(n, k)[..k - 1] == BigEndian(n / 256, k - 1);
    }
  }

  /** Every Go length fits eight bytes. */
  const MAX_LENGTH: nat := 0x7fff_ffff_ffff_ffff

  lemma LengthsFit(n: nat)
    requires n <= MAX_LENGTH
    ensures n < Power256(8)
  {
    assert Power256(4) == 0x1_0000_0000;
    assert Power256(8) == 256 * 256 * 256 * 256 * Power256(4);
  }

  function LengthPrefixed(s: Bytes): Bytes {
    BigEndian(|s|, 8) + s
  }

  function AudienceStream(audiences: seq<Bytes>): Bytes {
    if audiences == [] then []
    else AudienceStream(audiences[..|audiences| - 1]) + LengthPrefixed(audiences[|audiences| - 1])
  }

  function KeyStream(token: Bytes, audiences: seq<Bytes>): Bytes {
    LengthPrefixed(token) + BigEndian(|audiences|, 8) + AudienceStream(audiences)
  }

  /** cacheKey, up to the hash: writes into the hash one piece at a time. */
  method WriteKey(token: Bytes, audiences: seq<Bytes>) returns (written: Bytes)
    ensures written == KeyStream(token, audiences)
  {
    written := LengthPrefixed(token);
    written := written + BigEndian(|audiences|, 8);
    for i := 0 to |audiences|
      invariant written == LengthPrefixed(token) + BigEndian(|audiences|, 8) + AudienceStream(audiences[..i])
    {
      assert audiences[..i + 1][..i] == audiences[..i];
      written := written + LengthPrefixed(audiences[i]);
    }
    assert audiences[..|audiences|] == audiences;
  }

  predicate Representable(token: Bytes, audiences: seq<Bytes>) {
    && |token| <= MAX_LENGTH && |audiences| <= MAX_LENGTH
    && forall a :: a in audiences ==> |a| <= MAX_LENGTH
  }

  /** Eight bytes of length say what length it is. */
  lemma LengthSplits(n: nat, x: Bytes, m: nat, y: Bytes)
    requires n <= MAX_LENGTH && m <= MAX_LENGTH && BigEndian(n, 8) + x == BigEndian(m, 8) + y
    ensures n == m && x == y
  {
    var whole := BigEndian(n, 8) + x;
    assert whole[..8] == BigEndian(n, 8) && whole[..8] == BigEndian(m, 8);
    assert whole[8..] == x && whole[8..] == y;
    LengthsFit(n);
    LengthsFit(m);
    NumberOfBigEndian(n, 8);
    NumberOfBigEndian(m, 8);
  }

  /** A length prefix says where its string ends. */
  lemma PrefixSplits(s: Bytes, more: Bytes, t: Bytes, rest: Bytes)
    requires |s| <= MAX_LENGTH && |t| <= MAX_LENGTH
    requires LengthPrefixed(s) + more == LengthPrefixed(t) + rest
    ensures s == t && more == rest
  {
    assert LengthPrefixed(s) + more == BigEndian(|s|, 8) + (s + more);
    assert LengthPrefixed(t) + rest == BigEndian(|t|, 8) + (t + rest);
    LengthSplits(|s|, s + more, |t|, t + rest);
    assert (s + more)[..|s|] == s && (t + rest)[..|t|] == t;
    assert (s + more)[|s|..] == more && (t + rest)[|t|..] == rest;
  }

  /** The audiences read from the front. */
  lemma {:induction false} AudienceFront(audiences: seq<Bytes>)
    requires audiences != []
    ensures AudienceStream(audiences) == LengthPrefixed(audiences[0]) + AudienceStream(audiences[1..])
  {
    var n := |audiences| - 1;
    if n > 0 {
      AudienceFront(audiences[..n]);
      assert audiences[..n][1..] == audiences[1..][..n - 1];
    }
  }

  lemma {:induction false} AudiencesAreInjective(a: seq<Bytes>, b: seq<Bytes>)
    requires |a| == |b| && AudienceStream(a) == AudienceStream(b)
    requires forall x :: x in a ==> |x| <= MAX_LENGTH
    requires forall x :: x in b ==> |x| <= MAX_LENGTH
    ensures a == b
  {
    if a != [] {
      AudienceFront(a);
      AudienceFront(b);
      PrefixSplits(a[0], AudienceStream(a[1..]), b[0], AudienceStream(b[1..]));
      AudiencesAreInjective(a[1..], b[1..]);
      assert a == [a[0]] + a[1..] && b == [b[0]] + b[1..];
    }
  }

  lemma Associates(a: Bytes, b: Bytes, c: Bytes)
    ensures a + b + c == a + (b + c)
  {
  }

  lemma StreamInParts(t: Bytes, a: seq<Bytes>)
    ensures KeyStream(t, a) == LengthPrefixed(t) + (BigEndian(|a|, 8) + AudienceStream(a))
  {
    Associates(LengthPrefixed(t), BigEndian(|a|, 8), AudienceStream(a));
  }

  /** Two different inputs never feed the hash the same bytes. */
  lemma KeyStreamIsInjective(t: Bytes, a: seq<Bytes>, u: Bytes, b: seq<Bytes>)
    requires Representable(t, a) && Representable(u, b)
    ensures KeyStream(t, a) == KeyStream(u, b) <==> t == u && a == b
  {
    if KeyStream(t, a) == KeyStream(u, b) {
      var x, y := BigEndian(|a|, 8) + AudienceStream(a), BigEndian(|b|, 8) + AudienceStream(b);
      StreamInParts(t, a);
      StreamInParts(u, b);
      PrefixSplits(t, x, u, y);
      LengthSplits(|a|, AudienceStream(a), |b|, AudienceStream(b));
      AudiencesAreInjective(a, b);
    }
  }

  // ---- The cached authenticator ----

  datatype Response = Response(user: string, audiences: seq<Bytes>)

  /** What the API server says about a token; an error is not an answer. */
  datatype Review = Accepted(response: Response) | Rejected | Failed(error: Error)

  /** What AuthenticateToken returns, and what the cache holds. */
  datatype Answer = Yes(response: Response) | No

  function Definitive(review: Review): Option<Answer> {
    match review
    case Accepted(response) => Some(Yes(response))
    case Rejected => Some(No)
    case Failed(_) => None
  }

  /** A review that was answered: of which token, how, and when its answer was handled. */
  datatype Reviewed = Reviewed(token: Bytes, review: Review, at: int)

  /** A collision-free keyed hash. */
  ghost predicate CollisionFree<K(!new)>(hash: Bytes -> K) {
    forall a, b :: hash(a) == hash(b) ==> a == b
  }

  /** Concurrent calls do not share reviews, so any interleaving of them is a sequence of the two methods
      below, each one call's first or second half. The history of answered reviews is kept alongside. */
  class CachedTokenReview<K(==, !new)> {
    const cache: LruExpire<K, Answer>
    const hash: Bytes -> K
    const audiences: seq<Bytes>
    const successTTL: int
    const failureTTL: int
    ghost var history: seq<Reviewed>

    constructor (hash: Bytes -> K, audiences: seq<Bytes>, successTTL: int, failureTTL: int, size: nat)
      requires size > 0 && CollisionFree(hash)
      ensures Valid() && fresh(cache) && history == [] && cache.entries == map[]
      ensures this.hash == hash && this.audiences == audiences
      ensures this.successTTL == successTTL && this.failureTTL == failureTTL
    {
      this.hash, this.audiences := hash, audiences;
      this.successTTL, this.failureTTL := successTTL, failureTTL;
      cache := new LruExpire<K, Answer>(size);
      history := [];
    }

    function TTL(answer: Answer): int {
      if answer.Yes? then successTTL else failureTTL
    }

    /** Review i of a history is where an entry's answer comes from. */
    ghost predicate ComesFrom(reviews: seq<Reviewed>, i: nat, key: K, entry: Stored<Answer>) {
      && i < |reviews|
      && key == hash(KeyStream(reviews[i].token, audiences))
      && Representable(reviews[i].token, audiences)
      && Definitive(reviews[i].review) == Some(entry.value) && reviews[i].at == entry.storedAt
    }

    /** An entry is the definitive answer of a review of the one token its key stands for, stored for the
        TTL of its class. */
    ghost predicate Justified(reviews: seq<Reviewed>, key: K, entry: Stored<Answer>) {
      && TTL(entry.value) > 0 && entry.expires == entry.storedAt + TTL(entry.value)
      && exists i: nat :: ComesFrom(reviews, i, key, entry)
    }

    lemma JustifiedStays(reviews: seq<Reviewed>, more: Reviewed, key: K, entry: Stored<Answer>)
      requires Justified(reviews, key, entry)
      ensures Justified(reviews + [more], key, entry)
    {
      var i: nat :| ComesFrom(reviews, i, key, entry);
      assert ComesFrom(reviews + [more], i, key, entry);
    }

    ghost predicate Valid()
      reads this, cache
    {
      && cache.Valid() && CollisionFree(hash)
      && forall k :: k in cache.entries ==> Justified(history, k, cache.entries[k])
    }

    ghost predicate IsStored(key: K, entry: Stored<Answer>)
      reads cache
    {
      key in cache.entries && cache.entries[key] == entry
    }

    /** Every review so far was answered as a fixed reviewer answers. */
    ghost predicate Follows(reviewer: Bytes -> Review)
      reads this
    {
      forall i :: 0 <= i < |history| ==> history[i].review == reviewer(history[i].token)
    }

    /** The first half of a call. What is stored for this token is a hit for exactly as long as the TTL of its class,
        and a hit is a definitive review of this very token, answered no longer ago than that. */
    method LookUp(token: Bytes, now: int) returns (hit: Option<Answer>, ghost from: nat)
      requires Valid() && Representable(token, audiences)
      modifies cache
      ensures Valid() && history == old(history)
      ensures var key := hash(KeyStream(token, audiences));
        && (hit.Some? <==>
              key in old(cache.entries)
              && var e := old(cache.entries)[key];
                 now - e.storedAt <= if e.value.Yes? then successTTL else failureTTL)
        && (hit.Some? ==> hit.value == old(cache.entries)[key].value)
      ensures hit.Some? ==> from < |history| && history[from].token == token
      ensures hit.Some? ==> Definitive(history[from].review) == hit
      ensures hit.Some? ==> now - history[from].at <= if hit.value.Yes? then successTTL else failureTTL
    {
      var stream := WriteKey(token, audiences);
      var key := hash(stream);
      hit := cache.Get(key, now);
      from := 0;
      if hit.Some? {
        ghost var entry := old(cache.entries)[key];
        assert Justified(history, key, entry);
        ghost var i: nat :| ComesFrom(history, i, key, entry);
        KeyStreamIsInjective(token, audiences, history[i].token, audiences);
        from := i;
      }
    }

    /** A review is added to the history; nothing stored loses its justification. */
    ghost method Remember(reviewed: Reviewed)
      requires Valid()
      modifies this`history
      ensures Valid() && history == old(history) + [reviewed]
    {
      ghost var reviews := history;
      history := history + [reviewed];
      forall k | k in cache.entries
        ensures Justified(history, k, cache.entries[k])
      {
        JustifiedStays(reviews, reviewed, k, cache.entries[k]);
      }
    }

    /** The second half, after a miss: the review came back. An error is passed on and leaves the cache
        alone; an answer is returned as it is. */
    method Finish(token: Bytes, review: Review, now: int) returns (answer: Option<Answer>)
      requires Valid() && Representable(token, audiences)
      modifies this, cache
      ensures Valid() && history == old(history) + [Reviewed(token, review, now)]
      ensures answer == Definitive(review)
      ensures review.Failed? || TTL(answer.value) <= 0 ==> cache.entries == old(cache.entries)
      ensures !review.Failed? && TTL(answer.value) > 0 ==>
        IsStored(hash(KeyStream(token, audiences)), Stored(answer.value, now, now + TTL(answer.value)))
    {
      Remember(Reviewed(token, review, now));
      match review {
        case Failed(_) => return None;
        case Accepted(response) => answer := Some(Yes(response));
        case Rejected => answer := Some(No);
      }
      Store(token, answer.value, now);
    }

    lemma LatestIsJustified(reviews: seq<Reviewed>, token: Bytes, answer: Answer, now: int)
      requires TTL(answer) > 0 && Representable(token, audiences) && reviews != []
      requires var last := reviews[|reviews| - 1];
        last.token == token && last.at == now && Definitive(last.review) == Some(answer)
      ensures Justified(reviews, hash(KeyStream(token, audiences)), Stored(answer, now, now + TTL(answer)))
    {
      assert ComesFrom(
        reviews, |reviews| - 1, hash(KeyStream(token, audiences)), Stored(answer, now, now + TTL(answer)));
    }

    /** The latest review's answer goes into the cache, for the TTL of its class. */
    method Store(token: Bytes, answer: Answer, now: int)
      requires Valid() && Representable(token, audiences) && history != []
      requires var last := history[|history| - 1];
        last.token == token && last.at == now && Definitive(last.review) == Some(answer)
      modifies cache
      ensures Valid()
      ensures TTL(answer) <= 0 ==> cache.entries == old(cache.entries)
      ensures TTL(answer) > 0 ==>
        IsStored(hash(KeyStream(token, audiences)), Stored(answer, now, now + TTL(answer)))
    {
      var ttl := TTL(answer);
      if ttl > 0 {
        LatestIsJustified(history, token, answer, now);
        var stream := WriteKey(token, audiences);
        Keep(hash(stream), answer, ttl, now);
      }
    }

    /** A justified entry goes into the cache. */
    method Keep(key: K, answer: Answer, ttl: int, now: int)
      requires Valid() && ttl == TTL(answer) && Justified(history, key, Stored(answer, now, now + ttl))
      modifies cache
      ensures Valid() && IsStored(key, Stored(answer, now, now + ttl))
    {
      ghost var before := cache.entries;
      cache.Add(key, answer, ttl, now);
      forall k | k in cache.entries
        ensures Justified(history, k, cache.entries[k])
      {
        assert k == key || (k in before && cache.entries[k] == before[k]);
      }
    }

    /** A whole call against a fixed reviewer answers exactly as the bare reviewer does, whatever earlier
        or concurrent calls left in the cache. */
    method AuthenticateToken(token: Bytes, reviewer: Bytes -> Review, now: int, later: int)
      returns (answer: Option<Answer>)
      requires Valid() && Representable(token, audiences) && Follows(reviewer)
      modifies this, cache
      ensures Valid() && Follows(reviewer)
      ensures answer == Definitive(reviewer(token))
    {
      ghost var from;
      answer, from := LookUp(token, now);
      if answer.None? {
        answer := Finish(token, reviewer(token), later);
      }
    }
  }
}
