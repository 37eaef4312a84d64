/** `RwLockStdHashMapTable`: a `std::collections::HashMap` behind an `Arc`
    and a read-write lock.  The table is its own handle: `pin` clones the
    `Arc`, so every handle works on the one shared map.  Each call is modelled
    as one atomic step on that map; the lock is not modelled. */
module StdAdapter {
  import opened Common
  import opened Capability
  import opened SharedMaps

  class RwLockStdHashMapTable<K(==,!new)> {
    const shared: SharedMap<K>

    /** `with_capacity`: a fresh, empty map; the capacity is only a sizing hint. */
    constructor WithCapacity(capacity: nat)
      ensures fresh(shared)
      ensures shared.entries == map[]
    {
      shared := new SharedMap();
    }

    /** The clone made by `pin`: another handle on the same map. */
    constructor Share(m: SharedMap<K>)
      ensures shared == m
    {
      shared := m;
    }

    /** `pin`: a new handle sharing this table's map. */
    method Pin() returns (h: RwLockStdHashMapTable<K>)
      ensures fresh(h)
      ensures h.shared == shared
    {
      h := new RwLockStdHashMapTable.Share(shared);
    }

    /** `get`: reports presence, changes nothing. */
    method Get(key: K) returns (present: bool)
      ensures present <==> key in shared.entries
      ensures Apply(shared.entries, Op.Get(key)) == Outcome(shared.entries, present)
    {
      var v := shared.Get(key);
      present := v.Some?;
    }

    /** `insert(key, 0).is_none()`: store 0, report that the key was absent. */
    method Insert(key: K) returns (inserted: bool)
      modifies shared
      ensures inserted <==> key !in old(shared.entries)
      ensures shared.entries == old(shared.entries)[key := 0]
      ensures Apply(old(shared.entries), Op.Insert(key)) == Outcome(shared.entries, inserted)
    {
      var previous := shared.Insert(key, 0);
      inserted := previous.None?;
    }

    /** `remove(key).is_some()`: report that something was removed. */
    method Remove(key: K) returns (removed: bool)
      modifies shared
      ensures removed <==> key in old(shared.entries)
      ensures shared.entries == old(shared.entries) - {key}
      ensures Apply(old(shared.entries), Op.Remove(key)) == Outcome(shared.entries, removed)
    {
      var v := shared.Remove(key);
      removed := v.Some?;
    }

    /** `get_mut(key).map(|v| *v += 1).is_some()`: increment a present value;
        on an absent key nothing happens and false is reported. */
    method Update(key: K) returns (updated: bool)
      modifies shared
      ensures updated <==> key in old(shared.entries)
      ensures !updated ==> shared.entries == old(shared.entries)
      ensures updated ==> shared.entries == old(shared.entries)[key := old(shared.entries)[key] + 1]
      ensures Apply(old(shared.entries), Op.Update(key)) == Outcome(shared.entries, updated)
    {
      updated := shared.IncrementInPlace(key);
    }
  }

  /** Two handles pinned from one table see each other's writes: a key
      inserted through one is present through the other. */
  method PinnedHandlesShareOneMap<K(==,!new)>(capacity: nat, key: K) returns (inserted: bool, seen: bool)
    ensures inserted && seen
  {
    var table := new RwLockStdHashMapTable<K>.WithCapacity(capacity);
    var writer := table.Pin();
    var reader := table.Pin();
    inserted := writer.Insert(key);
    seen := reader.Get(key);
  }
}
