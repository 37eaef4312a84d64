/** The standard-library map (`HashMap` or `BTreeMap`) that the lock-based
    adapters keep behind an `Arc` and a lock.  Both have the same meaning as
    an abstract map from keys to stored values; hashing, ordering and the
    lock itself do not change what a call returns. */
module SharedMaps {
  import opened Common

  /** `Some(m[k])` when `k` is stored, `None` otherwise. */
  function Lookup<K(==)>(m: map<K, nat>, k: K): (r: Option<nat>)
    ensures r.Some? <==> k in m
    ensures r.Some? ==> r.value == m[k]
  {
    if k in m then Some(m[k]) else None
  }

  class SharedMap<K(==)> {
    var entries: map<K, nat>

    /** `HashMap::with_capacity_and_hasher` / `BTreeMap::new`: an empty map. */
    constructor ()
      ensures entries == map[]
    {
      entries := map[];
    }

    /** `get`: the stored value, if any. */
    method Get(key: K) returns (v: Option<nat>)
      ensures v == Lookup(entries, key)
    {
      v := Lookup(entries, key);
    }

    /** `insert(key, value)`: store `value`, return the value it replaced. */
    method Insert(key: K, value: nat) returns (previous: Option<nat>)
      modifies this
      ensures previous == Lookup(old(entries), key)
      ensures entries == old(entries)[key := value]
    {
      previous := Lookup(entries, key);
      entries := entries[key := value];
    }

    /** `remove(key)`: drop the key, return the value it held. */
    method Remove(key: K) returns (removed: Option<nat>)
      modifies this
      ensures removed == Lookup(old(entries), key)
      ensures entries == old(entries) - {key}
    {
      removed := Lookup(entries, key);
      entries := entries - {key};
    }

    /** `get_mut(key).map(|v| *v += 1)`: add one to the stored value in place
        when the key is present; report whether it was. */
    method IncrementInPlace(key: K) returns (found: bool)
      modifies this
      ensures found <==> key in old(entries)
      ensures entries == if found then old(entries)[key := old(entries)[key] + 1] else old(entries)
    {
      found := key in entries;
      if found {
        entries := entries[key := entries[key] + 1];
      }
    }
  }
}
