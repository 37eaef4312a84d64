/** `RwLockBTreeMapTable`: a `std::collections::BTreeMap` behind an `Arc`
    and a read-write lock.  Like the hash-map table it is its own handle and
    `pin` shares the one map; unlike it, `with_capacity` ignores its argument. */
module BTreeMapAdapter {
  import opened Common
  import opened Capability
  import opened SharedMaps

  class RwLockBTreeMapTable<K(==,!new)> {
    const shared: SharedMap<K>

    /** `with_capacity(_)`: `BTreeMap::new()`, whatever the capacity. */
    constructor WithCapacity(capacity: nat)
      ensures fresh(shared)
      ensures shared.entries == map[]
    {
      shared := new SharedMap();
    }

    /** The clone made by `pin`: another handle on the same map. */
    constructor Share(m: SharedMap<K>)
      ensures shared == m
    {
      shared := m;
    }

    /** `pin`: a new handle sharing this table's map. */
    method Pin() returns (h: RwLockBTreeMapTable<K>)
      ensures fresh(h)
      ensures h.shared == shared
    {
      h := new RwLockBTreeMapTable.Share(shared);
    }

    /** `get`: reports membership, changes nothing. */
    method Get(key: K) returns (present: bool)
      ensures present <==> key in shared.entries
      ensures Apply(shared.entries, Op.Get(key)) == Outcome(shared.entries, present)
    {
      var v := shared.Get(key);
      present := v.Some?;
    }

    /** `insert(key, 0).is_none()`: store 0, report that the key was absent. */
    method Insert(key: K) returns (inserted: bool)
      modifies shared
      ensures inserted <==> key !in old(shared.entries)
      ensures shared.entries == old(shared.entries)[key := 0]
      ensures Apply(old(shared.entries), Op.Insert(key)) == Outcome(shared.entries, inserted)
    {
      var previous := shared.Insert(key, 0);
      inserted := previous.None?;
    }

    /** `remove(key).is_some()`: report presence; the key is gone afterwards. */
    method Remove(key: K) returns (removed: bool)
      modifies shared
      ensures removed <==> key in old(shared.entries)
      ensures shared.entries == old(shared.entries) - {key}
      ensures Apply(old(shared.entries), Op.Remove(key)) == Outcome(shared.entries, removed)
    {
      var v := shared.Remove(key);
      removed := v.Some?;
    }

    /** `get_mut(key).map(|v| *v += 1).is_some()`: increment a present value;
        an absent key leaves the map unchanged and reports false. */
    method Update(key: K) returns (updated: bool)
      modifies shared
      ensures updated <==> key in old(shared.entries)
      ensures !updated ==> shared.entries == old(shared.entries)
      ensures updated ==> shared.entries == old(shared.entries)[key := old(shared.entries)[key] + 1]
      ensures Apply(old(shared.entries), Op.Update(key)) == Outcome(shared.entries, updated)
    {
      updated := shared.IncrementInPlace(key);
    }
  }

  /** Whatever capacity is asked for, the table starts empty: a Get through a
      pinned handle reports absence, and the first Insert reports true. */
  method CapacityIsIgnored<K(==,!new)>(capacity: nat, key: K) returns (seenBefore: bool, inserted: bool, seenAfter: bool)
    ensures !seenBefore && inserted && seenAfter
  {
    var table := new RwLockBTreeMapTable<K>.WithCapacity(capacity);
    var h := table.Pin();
    seenBefore := h.Get(key);
    inserted := h.Insert(key);
    var other := table.Pin();
    seenAfter := other.Get(key);
  }
}
