/** The cache of authorization decisions: split TTLs, and a nil cache that is simply off. */
module DecisionCache {
  import opened Strings
  import opened ReviewSpec
  import opened ExpiringCache
  import Machine = ReviewMachine

  const DECISION_CACHE_SIZE: nat := 8192

  class Decisions {
    const lru: LruExpire<Machine.Key, bool>
    const allowTTL: int
    const denyTTL: int

    constructor (allowTTL: int, denyTTL: int, size: nat)
      requires size > 0
      ensures fresh(lru) && lru.Valid() && lru.entries == map[]
      ensures this.allowTTL == allowTTL && this.denyTTL == denyTTL
    {
      this.allowTTL, this.denyTTL := allowTTL, denyTTL;
      lru := new LruExpire<Machine.Key, bool>(size);
    }
  }

  /** Every entry is a decision stored for exactly the TTL of its class, which is positive. */
  ghost predicate SplitTTLs(c: Decisions)
    reads c.lru
  {
    && c.lru.Valid()
    && forall k :: k in c.lru.entries ==>
         var e := c.lru.entries[k];
         e.expires - e.storedAt == (if e.value then c.allowTTL else c.denyTTL) > 0
  }

  /** newDecisionCache: off when neither class is cached. */
  method New(allowTTL: int, denyTTL: int) returns (c: Decisions?)
    ensures c == null <==> allowTTL <= 0 && denyTTL <= 0
    ensures c != null ==> fresh(c) && fresh(c.lru) && SplitTTLs(c) && c.lru.entries == map[]
    ensures c != null ==> c.allowTTL == allowTTL && c.denyTTL == denyTTL
  {
    if allowTTL <= 0 && denyTTL <= 0 {
      c := null;
    } else {
      c := new Decisions(allowTTL, denyTTL, DECISION_CACHE_SIZE);
    }
  }

  /** The key is the serialised spec. There is none without a cache, for a spec that does not serialise, and for
      one longer than 10000 bytes; the machine's key is the same. */
  method Key(c: Decisions?, json: Spec -> Option<string>, spec: Spec) returns (key: Option<Machine.Key>)
    ensures c == null ==> key == None
    ensures key.Some? <==> c != null && json(spec).Some? && |json(spec).value| <= 10000
    ensures key.Some? ==> key == json(spec)
    ensures forall env :: c != null && (c.allowTTL > 0 || c.denyTTL > 0) ==>
      key == Machine.KeyOf(Machine.Config(json, c.allowTTL, c.denyTTL, env), spec)
  {
    if c == null {
      return None;
    }
    var text := json(spec);
    if text.None? || |text.value| > Machine.MAX_CACHE_KEY_SIZE {
      return None;
    }
    return text;
  }

  /** A hit is the decision stored under that key, for exactly as long as the TTL of its class. */
  method Get(c: Decisions?, key: Machine.Key, now: int) returns (decision: Option<bool>)
    requires c != null ==> SplitTTLs(c)
    modifies if c == null then {} else {c.lru}
    ensures c == null ==> decision == None
    ensures c != null ==> SplitTTLs(c)
    ensures c != null ==>
      (decision.Some? <==>
        key in old(c.lru.entries)
        && var e := old(c.lru.entries)[key];
           now - e.storedAt <= if e.value then c.allowTTL else c.denyTTL)
    ensures c != null && decision.Some? ==> decision.value == old(c.lru.entries)[key].value
    ensures c != null ==>
      c.lru.entries == if decision.Some? then old(c.lru.entries) else old(c.lru.entries) - {key}
  {
    if c == null {
      return None;
    }
    decision := c.lru.Get(key, now);
  }

  /** A decision is stored for its own class's TTL, and not at all when that class is not cached. */
  method Put(c: Decisions?, key: Machine.Key, allowed: bool, now: int)
    requires c != null ==> SplitTTLs(c)
    modifies if c == null then {} else {c.lru}
    ensures c != null ==> SplitTTLs(c)
    ensures c != null ==>
      var ttl := if allowed then c.allowTTL else c.denyTTL;
      if ttl <= 0 then c.lru.entries == old(c.lru.entries)
      else key in c.lru.entries && c.lru.entries[key] == Stored(allowed, now, now + ttl)
    ensures c != null ==> forall k :: k in c.lru.entries && k != key ==>
      k in old(c.lru.entries) && c.lru.entries[k] == old(c.lru.entries)[k]
    ensures c != null && |old(c.lru.entries)| < c.lru.size ==>
      |c.lru.entries| <= |old(c.lru.entries)| + 1 && forall k :: k in old(c.lru.entries) ==> k in c.lru.entries
  {
    if c == null {
      return;
    }
    var ttl := if allowed then c.allowTTL else c.denyTTL;
    if ttl <= 0 {
      return;
    }
    c.lru.Add(key, allowed, ttl, now);
  }

  /** A stored decision, after any number of decisions stored under other keys, is what Get answers up to the end
      of the TTL of its own class, unless it was evicted to make room. */
  method PutThenGet(c: Decisions, key: Machine.Key, allowed: bool, now: int,
                    others: seq<(Machine.Key, bool, int)>, later: int)
    returns (kept: bool, decision: Option<bool>)
    requires SplitTTLs(c) && (if allowed then c.allowTTL else c.denyTTL) > 0
    requires forall o :: o in others ==> o.0 != key
    modifies c.lru
    ensures SplitTTLs(c)
    ensures |old(c.lru.entries)| + 1 + |others| <= c.lru.size ==> kept
    ensures kept && later <= now + (if allowed then c.allowTTL else c.denyTTL) ==> decision == Some(allowed)
    ensures !kept || later > now + (if allowed then c.allowTTL else c.denyTTL) ==> decision == None
  {
    Put(c, key, allowed, now);
    for i := 0 to |others|
      invariant SplitTTLs(c)
      invariant key in c.lru.entries ==>
        c.lru.entries[key] == Stored(allowed, now, now + if allowed then c.allowTTL else c.denyTTL)
      invariant |old(c.lru.entries)| + 1 + |others| <= c.lru.size ==>
        key in c.lru.entries && |c.lru.entries| <= |old(c.lru.entries)| + 1 + i
    {
      Put(c, others[i].0, others[i].1, others[i].2);
    }
    kept := key in c.lru.entries;
    decision := Get(c, key, later);
  }

  /** The machine's cache, seen as the contents of such a cache. */
  function Contents(cache: map<Machine.Key, Machine.Entry>): map<Machine.Key, Stored<bool>> {
    map k | k in cache :: Stored(cache[k].allowed, cache[k].storedAt, cache[k].expires)
  }

  /** The machine's lookups hit and its fills store exactly as Get and Put do. */
  lemma MachineUsesTheCache(c: Machine.Config, s: Machine.State, q: nat, f: nat)
    ensures Machine.Enabled(c, s, Machine.LookUp(q)) && Machine.KeyOf(c, s.questions[q].spec).Some? ==>
      var entries, key := Contents(s.cache), Machine.KeyOf(c, s.questions[q].spec).value;
      var asked := Machine.DoLookUp(c, s, q).questions[q];
      && (asked.lookup.Hit? <==> key in entries && s.now <= entries[key].expires)
      && (asked.lookup.Hit? ==>
            asked.progress.Answered? && asked.progress.reply == Machine.Verdict(entries[key].value))
    ensures Machine.AtFlight(s, f, Machine.Replied) && s.reviews[s.flights[f].review].reply.Some? ==>
      var reply := s.reviews[s.flights[f].review].reply.value;
      var filled := Contents(Machine.DoFill(c, s, f).cache);
      var ttl := if reply.Fault? then 0 else if reply.allowed then c.allowTTL else c.denyTTL;
      filled == if ttl <= 0 then Contents(s.cache)
                else Contents(s.cache)[s.flights[f].key := Stored(reply.allowed, s.now, s.now + ttl)]
  {
  }
}
