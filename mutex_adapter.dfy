/** `MutexStdTable` of `src/adapters.rs`: a `HashMap` behind an `Arc` and a
    mutex.  The table is its own handle and `pin` clones the `Arc`.  Its
    `insert` reports `is_none()`, i.e. that the key was absent. */
module MutexAdapter {
  import opened Common
  import opened Capability
  import opened SharedMaps

  class MutexStdTable<K(==,!new)> {
    const shared: SharedMap<K>

    /** `with_capacity`: a fresh, empty map. */
    constructor WithCapacity(capacity: nat)
      ensures fresh(shared)
      ensures shared.entries == map[]
    {
      shared := new SharedMap();
    }

    /** The clone made by `pin`: another handle on the same map. */
    constructor Share(m: SharedMap<K>)
      ensures shared == m
    {
      shared := m;
    }

    /** `pin`: clones the shared handle, so all handles observe one map. */
    method Pin() returns (h: MutexStdTable<K>)
      ensures fresh(h)
      ensures h.shared == shared
    {
      h := new MutexStdTable.Share(shared);
    }

    /** `get(key).is_some()`. */
    method Get(key: K) returns (present: bool)
      ensures present <==> key in shared.entries
      ensures Apply(shared.entries, Op.Get(key)) == Outcome(shared.entries, present)
    {
      var v := shared.Get(key);
      present := v.Some?;
    }

    /** `insert(key, 0).is_none()`: true iff the key was absent. */
    method Insert(key: K) returns (inserted: bool)
      modifies shared
      ensures inserted <==> key !in old(shared.entries)
      ensures shared.entries == old(shared.entries)[key := 0]
      ensures Apply(old(shared.entries), Op.Insert(key)) == Outcome(shared.entries, inserted)
    {
      var previous := shared.Insert(key, 0);
      inserted := previous.None?;
    }

    /** `remove(key).is_some()`. */
    method Remove(key: K) returns (removed: bool)
      modifies shared
      ensures removed <==> key in old(shared.entries)
      ensures shared.entries == old(shared.entries) - {key}
      ensures Apply(old(shared.entries), Op.Remove(key)) == Outcome(shared.entries, removed)
    {
      var v := shared.Remove(key);
      removed := v.Some?;
    }

    /** `get_mut(key).map(|v| *v += 1).is_some()`: never inserts. */
    method Update(key: K) returns (updated: bool)
      modifies shared
      ensures updated <==> key in old(shared.entries)
      ensures !updated ==> shared.entries == old(shared.entries)
      ensures updated ==> shared.entries == old(shared.entries)[key := old(shared.entries)[key] + 1]
      ensures Apply(old(shared.entries), Op.Update(key)) == Outcome(shared.entries, updated)
    {
      updated := shared.IncrementInPlace(key);
    }
  }
}
