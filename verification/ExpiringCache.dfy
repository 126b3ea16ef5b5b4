/** utilcache.LRUExpireCache as its two users see it: a bounded map whose entries are served up to the
    moment they expire. Which entry is evicted when it is full is left open. */
module ExpiringCache {
  import opened Strings

  datatype Stored<+V> = Stored(value: V, storedAt: int, expires: int)

  class LruExpire<K(==), V> {
    var entries: map<K, Stored<V>>
    const size: nat

    ghost predicate Valid()
      reads this
    {
      |entries| <= size && size > 0
    }

    constructor (size: nat)
      requires size > 0
      ensures Valid() && entries == map[] && this.size == size
    {
      this.size := size;
      entries := map[];
    }

    /** An entry is served up to and including the moment it expires. An expired one is dropped as it is met;
        nothing else changes. */
    method Get(key: K, now: int) returns (value: Option<V>)
      requires Valid()
      modifies this
      ensures Valid()
      ensures value.Some? <==> key in old(entries) && now <= old(entries)[key].expires
      ensures value.Some? ==> value.value == old(entries)[key].value
      ensures entries == if value.Some? then old(entries) else old(entries) - {key}
    {
      if key in entries && now <= entries[key].expires {
        return Some(entries[key].value);
      }
      DropSize(entries, key);
      entries := entries - {key};
      return None;
    }

    /** Storing under a new key when full evicts one other entry. */
    method Add(key: K, value: V, ttl: int, now: int)
      requires Valid()
      modifies this
      ensures Valid()
      ensures key in entries && entries[key] == Stored(value, now, now + ttl)
      ensures forall k :: k in entries && k != key ==> k in old(entries) && entries[k] == old(entries)[k]
      ensures |entries| <= |old(entries)| + 1
      ensures key in old(entries) || |old(entries)| < size ==>
        entries == old(entries)[key := Stored(value, now, now + ttl)]
    {
      if key !in entries && |entries| >= size {
        var victim :| victim in entries;
        DropSize(entries, victim);
        entries := entries - {victim};
      }
      var before := entries;
      entries := entries[key := Stored(value, now, now + ttl)];
      assert entries.Keys == before.Keys + {key};
    }
  }

  lemma DropSize<K, V>(entries: map<K, V>, key: K)
    ensures |entries - {key}| == if key in entries then |entries| - 1 else |entries|
  {
    assert (entries - {key}).Keys == entries.Keys - {key};
    if key in entries {
      assert |entries.Keys - {key}| == |entries.Keys| - 1;
    } else {
      assert entries - {key} == entries;
    }
  }
}
