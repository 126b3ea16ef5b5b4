/** The token buckets that sample warnings, one per reason, and the summaries of what they dropped. */
module WarningLimiter {

  /** rate.Limiter as a real-valued token bucket, with the count of what it refused. */
  datatype Bucket = Bucket(tokens: real, last: real, dropped: nat)

  datatype Config = Config(rate: real, burst: nat)

  type Entries = map<string, Bucket>

  function Min(a: real, b: real): real {
    if a < b then a else b
  }

  /** The tokens added between two times: the rate for as long as lies between them. */
  function Refilled(c: Config, from: real, to: real): real {
    c.rate * (to - from)
  }

  lemma NoTimeNoRefill(c: Config, t: real)
    ensures Refilled(c, t, t) == 0.0
  {
    assert t - t == 0.0;
  }

  lemma RefillsAdd(c: Config, from: real, mid: real, to: real)
    ensures Refilled(c, from, to) == Refilled(c, from, mid) + Refilled(c, mid, to)
  {
    assert to - from == (to - mid) + (mid - from);
  }

  lemma RefillIsPositive(c: Config, from: real, to: real)
    requires c.rate >= 0.0 && from <= to
    ensures Refilled(c, from, to) >= 0.0
  {
  }

  /** The tokens a bucket holds at time t. */
  function Level(c: Config, b: Bucket, t: real): real {
    Min(c.burst as real, b.tokens + (if t < b.last then 0.0 else Refilled(c, b.last, t)))
  }

  function BucketOf(c: Config, entries: Entries, reason: string, now: real): Bucket {
    if reason in entries then entries[reason] else Bucket(c.burst as real, now, 0)
  }

  function Admits(c: Config, b: Bucket, now: real): bool {
    c.burst >= 1 && Level(c, b, now) >= 1.0
  }

  /** A bucket after one record is offered. */
  function Spend(c: Config, b: Bucket, now: real): Bucket {
    if Admits(c, b, now) then b.(tokens := Level(c, b, now) - 1.0, last := now)
    else b.(dropped := b.dropped + 1)
  }

  function Zeroed(entries: Entries): Entries {
    map r | r in entries :: entries[r].(dropped := 0)
  }

  // ---- The order of strings ----

  predicate Before(a: string, b: string) {
    b != "" && (a == "" || a[0] < b[0] || (a[0] == b[0] && Before(a[1..], b[1..])))
  }

  lemma {:induction false} BeforeIsTotal(a: string, b: string)
    ensures a == b || Before(a, b) || Before(b, a)
    ensures !(Before(a, b) && Before(b, a)) && (a == b ==> !Before(a, b))
  {
    if a != "" && b != "" {
      BeforeIsTotal(a[1..], b[1..]);
      assert a == [a[0]] + a[1..] && b == [b[0]] + b[1..];
    }
  }

  lemma {:induction false} BeforeIsTransitive(a: string, b: string, c: string)
    requires Before(a, b) && Before(b, c)
    ensures Before(a, c)
  {
    if a != "" && a[0] == b[0] == c[0] {
      BeforeIsTransitive(a[1..], b[1..], c[1..]);
    }
  }

  datatype Suppressed = Suppressed(reason: string, dropped: nat)

  ghost predicate Sorted(s: seq<Suppressed>) {
    forall i, j :: 0 <= i < j < |s| ==> Before(s[i].reason, s[j].reason)
  }

  /** sort.Slice, one record at a time. */
  function Insert(s: seq<Suppressed>, x: Suppressed): seq<Suppressed> {
    if s == [] || Before(x.reason, s[0].reason) then [x] + s
    else [s[0]] + Insert(s[1..], x)
  }

  lemma {:induction false} InsertKeepsSorted(s: seq<Suppressed>, x: Suppressed)
    requires Sorted(s) && forall y :: y in s ==> y.reason != x.reason
    ensures Sorted(Insert(s, x))
    ensures forall y :: y in Insert(s, x) <==> y == x || y in s
  {
    if s == [] {
    } else if Before(x.reason, s[0].reason) {
      forall j | 0 < j < |s|
        ensures Before(x.reason, s[j].reason)
      {
        BeforeIsTransitive(x.reason, s[0].reason, s[j].reason);
      }
    } else {
      InsertKeepsSorted(s[1..], x);
      BeforeIsTotal(x.reason, s[0].reason);
      var rest := Insert(s[1..], x);
      forall j | 0 <= j < |rest|
        ensures Before(s[0].reason, rest[j].reason)
      {
        assert rest[j] in rest;
        if rest[j] != x {
          var i :| 0 <= i < |s[1..]| && s[1..][i] == rest[j];
          assert s[i + 1] == rest[j];
        }
      }
      assert forall y :: y in s <==> y == s[0] || y in s[1..];
    }
  }

  datatype Op = Offer(reason: string, at: real) | Flush

  function Step(c: Config, entries: Entries, op: Op): Entries {
    match op
    case Offer(reason, at) => entries[reason := Spend(c, BucketOf(c, entries, reason, at), at)]
    case Flush => Zeroed(entries)
  }

  // ---- The limiter ----

  class Limiter {
    const config: Config
    var entries: Entries

    constructor (config: Config)
      ensures this.config == config && entries == map[]
    {
      this.config := config;
      entries := map[];
    }

    /** A refused record is counted, not lost; other reasons are untouched. */
    method Allow(reason: string, now: real) returns (allowed: bool)
      modifies this
      ensures allowed == Admits(config, BucketOf(config, old(entries), reason, now), now)
      ensures entries == Step(config, old(entries), Offer(reason, now))
    {
      var entry := BucketOf(config, entries, reason, now);
      allowed := Admits(config, entry, now);
      if allowed {
        entry := entry.(tokens := Level(config, entry, now) - 1.0, last := now);
      } else {
        entry := entry.(dropped := entry.dropped + 1);
      }
      entries := entries[reason := entry];
    }

    /** Exactly the reasons that dropped records, with their counts, in order; the counts are zeroed and the
        buckets are left as they are. */
    method Drain() returns (out: seq<Suppressed>)
      modifies this
      ensures Sorted(out)
      ensures forall x :: x in out <==>
        x.reason in old(entries) && x.dropped == old(entries)[x.reason].dropped > 0
      ensures entries == Step(config, old(entries), Flush)
    {
      out := [];
      var left := entries.Keys;
      while left != {}
        invariant left <= old(entries).Keys == entries.Keys
        invariant Sorted(out)
        invariant forall x :: x in out <==>
          x.reason in old(entries) && x.reason !in left && x.dropped == old(entries)[x.reason].dropped > 0
        invariant forall r :: r in entries ==>
          entries[r] == if r in left then old(entries)[r] else old(entries)[r].(dropped := 0)
      {
        var reason :| reason in left;
        left := left - {reason};
        var entry := entries[reason];
        if entry.dropped != 0 {
          InsertKeepsSorted(out, Suppressed(reason, entry.dropped));
          out := Insert(out, Suppressed(reason, entry.dropped));
          entries := entries[reason := entry.(dropped := 0)];
        }
      }
    }
  }

  // ---- Whole histories ----

  function After(c: Config, ops: seq<Op>): Entries {
    if ops == [] then map[] else Step(c, After(c, ops[..|ops| - 1]), ops[|ops| - 1])
  }

  /** Whether the last operation of a history is an admitted record of this reason. */
  function AdmittedLast(c: Config, ops: seq<Op>, reason: string): nat
    requires ops != []
  {
    match ops[|ops| - 1]
    case Offer(r, at) =>
      if r == reason && Admits(c, BucketOf(c, After(c, ops[..|ops| - 1]), r, at), at) then 1 else 0
    case Flush => 0
  }

  /** Records of one reason admitted from operation i on. */
  function Admitted(c: Config, ops: seq<Op>, reason: string, i: nat): nat
    requires i <= |ops|
  {
    if |ops| == i then 0 else Admitted(c, ops[..|ops| - 1], reason, i) + AdmittedLast(c, ops, reason)
  }

  function Offered(ops: seq<Op>, reason: string): nat {
    if ops == [] then 0
    else
      var op := ops[|ops| - 1];
      Offered(ops[..|ops| - 1], reason) + if op.Offer? && op.reason == reason then 1 else 0
  }

  function Pending(entries: Entries, reason: string): nat {
    if reason in entries then entries[reason].dropped else 0
  }

  /** What the summaries written so far report for a reason. */
  function Summarised(c: Config, ops: seq<Op>, reason: string): nat {
    if ops == [] then 0
    else
      var before := ops[..|ops| - 1];
      Summarised(c, before, reason)
      + if ops[|ops| - 1].Flush? then Pending(After(c, before), reason) else 0
  }

  /** Nothing is lost: every record offered was admitted, reported in a summary, or is still to be reported. */
  lemma {:induction false} NothingIsLost(c: Config, ops: seq<Op>, reason: string)
    ensures Offered(ops, reason)
      == Admitted(c, ops, reason, 0) + Summarised(c, ops, reason) + Pending(After(c, ops), reason)
  {
    if ops != [] {
      NothingIsLost(c, ops[..|ops| - 1], reason);
    }
  }

  /** The operations that concern one reason: its own offers and the flushes. */
  function Only(ops: seq<Op>, reason: string): seq<Op> {
    if ops == [] then []
    else
      var op := ops[|ops| - 1];
      Only(ops[..|ops| - 1], reason) + if op.Flush? || op.reason == reason then [op] else []
  }

  ghost predicate SameBucket(a: Entries, b: Entries, reason: string) {
    (reason in a <==> reason in b) && (reason in a ==> a[reason] == b[reason])
  }

  lemma StepKeepsSameBucket(c: Config, a: Entries, b: Entries, op: Op, reason: string)
    requires SameBucket(a, b, reason)
    ensures op.Flush? || op.reason == reason ==> SameBucket(Step(c, a, op), Step(c, b, op), reason)
    ensures op.Offer? && op.reason != reason ==> SameBucket(Step(c, a, op), b, reason)
  {
    if op.Offer? && op.reason == reason {
      assert BucketOf(c, a, reason, op.at) == BucketOf(c, b, reason, op.at);
    }
  }

  lemma {:induction false} BucketsAreIndependent(c: Config, ops: seq<Op>, reason: string)
    ensures SameBucket(After(c, ops), After(c, Only(ops, reason)), reason)
  {
    if ops != [] {
      var before, op := ops[..|ops| - 1], ops[|ops| - 1];
      BucketsAreIndependent(c, before, reason);
      StepKeepsSameBucket(c, After(c, before), After(c, Only(before, reason)), op, reason);
      assert Only(before, reason) + [] == Only(before, reason);
      assert (Only(before, reason) + [op])[..|Only(before, reason)|] == Only(before, reason);
    }
  }

  /** One reason's traffic never changes another's: the bucket, the admissions and the summaries of a reason
      are those of its own history alone. */
  lemma {:induction false} ReasonsAreIndependent(c: Config, ops: seq<Op>, reason: string)
    ensures SameBucket(After(c, ops), After(c, Only(ops, reason)), reason)
    ensures Admitted(c, ops, reason, 0) == Admitted(c, Only(ops, reason), reason, 0)
    ensures Summarised(c, ops, reason) == Summarised(c, Only(ops, reason), reason)
  {
    BucketsAreIndependent(c, ops, reason);
    if ops != [] {
      var before, op := ops[..|ops| - 1], ops[|ops| - 1];
      ReasonsAreIndependent(c, before, reason);
      var own := Only(before, reason);
      assert own + [] == own && (own + [op])[..|own|] == own;
      if op.Offer? && op.reason == reason {
        assert BucketOf(c, After(c, before), reason, op.at) == BucketOf(c, After(c, own), reason, op.at);
      }
    }
  }

  // ---- The bound ----

  /** The clock does not run backwards. */
  ghost predicate InOrder(ops: seq<Op>) {
    forall i, j :: 0 <= i < j < |ops| && ops[i].Offer? && ops[j].Offer? ==> ops[i].at <= ops[j].at
  }

  ghost predicate Within(ops: seq<Op>, i: nat, from: real, to: real) {
    forall j :: i <= j < |ops| && ops[j].Offer? ==> from <= ops[j].at <= to
  }

  function LevelOf(c: Config, entries: Entries, reason: string, t: real): real {
    Level(c, BucketOf(c, entries, reason, t), t)
  }

  lemma Refill(c: Config, b: Bucket, t: real, later: real)
    requires c.rate >= 0.0 && t <= later
    ensures Level(c, b, later) <= Level(c, b, t) + Refilled(c, t, later)
  {
    RefillIsPositive(c, t, later);
    RefillsAdd(c, b.last, t, later);
    if t < b.last {
      RefillIsPositive(c, t, b.last);
      RefillsAdd(c, t, b.last, later);
    }
  }

  /** An admitted record costs one token; a refused one costs nothing. */
  lemma SpendCosts(c: Config, b: Bucket, t: real)
    ensures Level(c, Spend(c, b, t), t) == Level(c, b, t) - if Admits(c, b, t) then 1.0 else 0.0
  {
    if Admits(c, b, t) {
      NoTimeNoRefill(c, t);
      assert Level(c, Spend(c, b, t), t) == Min(c.burst as real, Level(c, b, t) - 1.0 + Refilled(c, t, t));
    }
  }

  /** What one operation does to the level of a reason's bucket at the operation's own time. */
  lemma OneRecord(c: Config, ops: seq<Op>, reason: string)
    requires ops != [] && ops[|ops| - 1].Offer?
    ensures var t, before := ops[|ops| - 1].at, After(c, ops[..|ops| - 1]);
      LevelOf(c, After(c, ops), reason, t) + AdmittedLast(c, ops, reason) as real
        <= LevelOf(c, before, reason, t)
  {
    var Offer(r, t) := ops[|ops| - 1];
    var before := After(c, ops[..|ops| - 1]);
    if r == reason {
      var b := BucketOf(c, before, reason, t);
      assert After(c, ops)[reason] == Spend(c, b, t);
      SpendCosts(c, b, t);
    }
  }

  lemma FlushKeepsLevels(c: Config, entries: Entries, reason: string, t: real)
    ensures LevelOf(c, Zeroed(entries), reason, t) == LevelOf(c, entries, reason, t)
  {
  }

  /** The records admitted since operation i and the tokens left never exceed a full bucket plus what the
      window refilled. */
  lemma {:induction false} WindowAccount(c: Config, ops: seq<Op>, reason: string, i: nat, from: real, to: real)
    requires c.rate >= 0.0 && i <= |ops| && from <= to
    requires InOrder(ops) && Within(ops, i, from, to)
    ensures Admitted(c, ops, reason, i) as real + LevelOf(c, After(c, ops), reason, to)
      <= c.burst as real + Refilled(c, from, to)
  {
    RefillIsPositive(c, from, to);
    if |ops| > i {
      var before, op := ops[..|ops| - 1], ops[|ops| - 1];
      match op {
        case Flush =>
          WindowAccount(c, before, reason, i, from, to);
          FlushKeepsLevels(c, After(c, before), reason, to);
        case Offer(r, t) =>
          assert from <= t <= to;
          assert Within(before, i, from, t);
          WindowAccount(c, before, reason, i, from, t);
          OneRecord(c, ops, reason);
          LaterLevel(c, After(c, ops), reason, t, to);
          RefillsAdd(c, from, t, to);
      }
    }
  }

  lemma LaterLevel(c: Config, entries: Entries, reason: string, t: real, later: real)
    requires c.rate >= 0.0 && t <= later
    ensures LevelOf(c, entries, reason, later) <= LevelOf(c, entries, reason, t) + Refilled(c, t, later)
  {
    if reason in entries {
      Refill(c, entries[reason], t, later);
    } else {
      UnseenIsFull(c, t);
      UnseenIsFull(c, later);
      RefillIsPositive(c, t, later);
    }
  }

  lemma UnseenIsFull(c: Config, t: real)
    ensures Level(c, Bucket(c.burst as real, t, 0), t) == c.burst as real
  {
    NoTimeNoRefill(c, t);
    assert Level(c, Bucket(c.burst as real, t, 0), t) == Min(c.burst as real, c.burst as real + Refilled(c, t, t));
  }

  lemma LevelOfPositive(c: Config, b: Bucket, t: real)
    requires c.rate >= 0.0 && b.tokens >= 0.0
    ensures Level(c, b, t) >= 0.0
  {
    if t >= b.last {
      RefillIsPositive(c, b.last, t);
    }
  }

  lemma {:induction false} TokensAreNotNegative(c: Config, ops: seq<Op>, reason: string)
    requires c.rate >= 0.0
    ensures reason in After(c, ops) ==> After(c, ops)[reason].tokens >= 0.0
  {
    if ops != [] {
      TokensAreNotNegative(c, ops[..|ops| - 1], reason);
    }
  }

  lemma LevelIsNotNegative(c: Config, ops: seq<Op>, reason: string, t: real)
    requires c.rate >= 0.0
    ensures LevelOf(c, After(c, ops), reason, t) >= 0.0
  {
    TokensAreNotNegative(c, ops, reason);
    LevelOfPositive(c, BucketOf(c, After(c, ops), reason, t), t);
  }

  /** In any window of length T, flushes included, at most burst + rate * T records of one reason are
      admitted. The window is any stretch of the history, from operation i to operation k. */
  lemma AdmissionIsBounded(
    c: Config, ops: seq<Op>, reason: string, i: nat, k: nat, from: real, to: real)
    requires c.rate >= 0.0 && i <= k <= |ops| && from <= to
    requires InOrder(ops) && Within(ops[..k], i, from, to)
    ensures Admitted(c, ops[..k], reason, i) as real <= c.burst as real + Refilled(c, from, to)
  {
    WindowAccount(c, ops[..k], reason, i, from, to);
    LevelIsNotNegative(c, ops[..k], reason, to);
  }

  // ---- It admits all it may ----

  /** Why a bucket holds what it holds: it was full at the time of operation j, and since operation i the tokens spent
      are the records admitted; l is the operation it was last spent at. */
  ghost predicate FullAt(c: Config, ops: seq<Op>, reason: string, i: nat, j: nat, l: nat) {
    && i <= |ops| && j < |ops| && l < |ops| && ops[j].Offer? && ops[l].Offer? && ops[j].at <= ops[l].at
    && (forall k :: i <= k < |ops| && ops[k].Offer? ==> ops[j].at <= ops[k].at)
    && reason in After(c, ops)
    && var b := After(c, ops)[reason];
       b.last == ops[l].at
       && b.tokens == c.burst as real + Refilled(c, ops[j].at, b.last) - Admitted(c, ops, reason, i) as real
  }

  lemma LevelSinceFull(c: Config, ops: seq<Op>, reason: string, i: nat, j: nat, l: nat, t: real)
    requires FullAt(c, ops, reason, i, j, l) && ops[l].at <= t
    ensures Level(c, After(c, ops)[reason], t)
      == Min(c.burst as real, c.burst as real + Refilled(c, ops[j].at, t) - Admitted(c, ops, reason, i) as real)
  {
    RefillsAdd(c, ops[j].at, ops[l].at, t);
  }

  lemma LastIsInOrder(before: seq<Op>, op: Op, k: nat)
    requires InOrder(before + [op]) && k < |before| && before[k].Offer? && op.Offer?
    ensures before[k].at <= op.at
  {
    assert (before + [op])[k] == before[k] && (before + [op])[|before|] == op;
  }

  /** One more operation that leaves the tokens of the reason alone. */
  lemma FullStays(c: Config, before: seq<Op>, op: Op, reason: string, i: nat, j: nat, l: nat)
    requires InOrder(before + [op]) && FullAt(c, before, reason, i, j, l)
    requires AdmittedLast(c, before + [op], reason) == 0
    ensures FullAt(c, before + [op], reason, i, j, l)
  {
    var ops := before + [op];
    assert ops[..|before|] == before;
    if op.Offer? {
      LastIsInOrder(before, op, j);
    }
  }

  /** One more record of the reason, admitted by a bucket that had not filled up again. */
  lemma FullGoesOn(c: Config, before: seq<Op>, op: Op, reason: string, i: nat, j: nat, l: nat)
    requires InOrder(before + [op]) && FullAt(c, before, reason, i, j, l)
    requires op.Offer? && op.reason == reason && Admits(c, After(c, before)[reason], op.at)
    requires Level(c, After(c, before)[reason], op.at) < c.burst as real
    ensures FullAt(c, before + [op], reason, i, j, |before|)
  {
    var ops := before + [op];
    assert ops[..|before|] == before;
    LastIsInOrder(before, op, j);
    LastIsInOrder(before, op, l);
    LevelSinceFull(c, before, reason, i, j, l, op.at);
  }

  /** One more record of the reason, met by a full bucket. */
  lemma FullAgain(c: Config, before: seq<Op>, op: Op, reason: string)
    requires op.Offer? && op.reason == reason
    requires Level(c, BucketOf(c, After(c, before), reason, op.at), op.at) == c.burst as real
    requires reason in After(c, before) ==> Admits(c, After(c, before)[reason], op.at)
    ensures var i := if Admits(c, BucketOf(c, After(c, before), reason, op.at), op.at) then |before| else |before| + 1;
      FullAt(c, before + [op], reason, i, |before|, |before|)
  {
    var ops := before + [op];
    assert ops[..|before|] == before;
    NoTimeNoRefill(c, op.at);
    assert Admitted(c, ops, reason, |before|) == Admitted(c, before, reason, |before|) + AdmittedLast(c, ops, reason);
  }

  lemma {:induction false} OnceFull(c: Config, ops: seq<Op>, reason: string) returns (i: nat, j: nat, l: nat)
    requires InOrder(ops) && reason in After(c, ops)
    ensures FullAt(c, ops, reason, i, j, l)
  {
    var before, op := ops[..|ops| - 1], ops[|ops| - 1];
    assert ops == before + [op];
    if op.Flush? || op.reason != reason {
      i, j, l := OnceFull(c, before, reason);
      FullStays(c, before, op, reason, i, j, l);
    } else {
      var b := BucketOf(c, After(c, before), reason, op.at);
      if reason !in After(c, before) {
        UnseenIsFull(c, op.at);
        FullAgain(c, before, op, reason);
        i, j, l := if Admits(c, b, op.at) then |before| else |before| + 1, |before|, |before|;
      } else if !Admits(c, b, op.at) {
        i, j, l := OnceFull(c, before, reason);
        FullStays(c, before, op, reason, i, j, l);
      } else if Level(c, b, op.at) < c.burst as real {
        i, j, l := OnceFull(c, before, reason);
        FullGoesOn(c, before, op, reason, i, j, l);
        l := |before|;
      } else {
        FullAgain(c, before, op, reason);
        i, j, l := |before|, |before|, |before|;
      }
    }
  }

  /** Whether one more record at time t stays within the bound of the window that begins with operation i at time
      from. */
  ghost predicate Fits(c: Config, ops: seq<Op>, reason: string, i: nat, from: real, t: real) {
    i <= |ops| && from <= t && Within(ops, i, from, t) ==>
      Admitted(c, ops, reason, i) as real + 1.0 <= c.burst as real + Refilled(c, from, t)
  }

  lemma RefusedDoesNotFit(c: Config, ops: seq<Op>, reason: string, t: real) returns (i: nat, from: real)
    requires c.rate >= 0.0 && InOrder(ops + [Offer(reason, t)])
    requires !Admits(c, BucketOf(c, After(c, ops), reason, t), t)
    ensures !Fits(c, ops, reason, i, from, t)
  {
    i, from := |ops|, t;
    NoTimeNoRefill(c, t);
    if c.burst >= 1 {
      if reason in After(c, ops) {
        assert InOrder(ops) by {
          assert (ops + [Offer(reason, t)])[..|ops|] == ops;
        }
        var j, l;
        i, j, l := OnceFull(c, ops, reason);
        from := ops[j].at;
        LastIsInOrder(ops, Offer(reason, t), j);
        LastIsInOrder(ops, Offer(reason, t), l);
        LevelSinceFull(c, ops, reason, i, j, l, t);
        forall k | i <= k < |ops| && ops[k].Offer?
          ensures from <= ops[k].at <= t
        {
          LastIsInOrder(ops, Offer(reason, t), k);
        }
      } else {
        UnseenIsFull(c, t);
      }
    }
  }

  /** The bound is all that is held against a record: with a clock that does not run backwards it is admitted if and
      only if it stays within the bound of every window that ends with it. */
  lemma AdmittedExactlyWhenItFits(c: Config, ops: seq<Op>, reason: string, t: real)
    requires c.rate >= 0.0 && InOrder(ops + [Offer(reason, t)])
    ensures AdmittedLast(c, ops + [Offer(reason, t)], reason) == 1
      <==> forall i: nat, from: real :: Fits(c, ops, reason, i, from, t)
  {
    var all := ops + [Offer(reason, t)];
    assert all[..|ops|] == ops && all[..|all|] == all;
    if Admits(c, BucketOf(c, After(c, ops), reason, t), t) {
      forall i: nat, from: real
        ensures Fits(c, ops, reason, i, from, t)
      {
        if i <= |ops| && from <= t && Within(ops, i, from, t) {
          AdmissionIsBounded(c, all, reason, i, |all|, from, t);
        }
      }
    } else {
      var i, from := RefusedDoesNotFit(c, ops, reason, t);
    }
  }
}
