/** `CrossbeamSkipMapTable` and `CrossbeamSkipMapHandle`.  The table holds no
    map at all: every `pin` creates a brand-new, empty `SkipMap` owned by the
    handle, so handles share no state.  `insert` is a check followed by a
    write, and `update` reads the value and writes back one more. */
module SkipMapAdapter {
  import opened Common
  import opened Capability
  import opened SharedMaps

  /** `crossbeam_skiplist::SkipMap`, as an abstract map. */
  class SkipMap<K(==)> {
    var entries: map<K, nat>

    /** `SkipMap::new()`. */
    constructor ()
      ensures entries == map[]
    {
      entries := map[];
    }

    /** `get`: the entry's value, if the key is present. */
    method Get(key: K) returns (v: Option<nat>)
      ensures v == Lookup(entries, key)
    {
      v := Lookup(entries, key);
    }

    /** `insert(key, value)`: store `value`, replacing any earlier one. */
    method Insert(key: K, value: nat)
      modifies this
      ensures entries == old(entries)[key := value]
    {
      entries := entries[key := value];
    }

    /** `remove(key)`: drop the key, returning its entry if there was one. */
    method Remove(key: K) returns (removed: Option<nat>)
      modifies this
      ensures removed == Lookup(old(entries), key)
      ensures entries == old(entries) - {key}
    {
      removed := Lookup(entries, key);
      entries := entries - {key};
    }
  }

  /** The table: no fields, since it carries no map state. */
  class CrossbeamSkipMapTable<K(==,!new)> {

    /** `with_capacity(_)`: nothing is allocated and the capacity is unused. */
    constructor WithCapacity(capacity: nat)
    {
    }

    /** `pin`: a handle over a fresh, empty skip map of its own. */
    method Pin() returns (h: CrossbeamSkipMapHandle<K>)
      ensures fresh(h) && fresh(h.skipMap)
      ensures h.skipMap.entries == map[]
    {
      var m := new SkipMap<K>();
      h := new CrossbeamSkipMapHandle(m);
    }
  }

  class CrossbeamSkipMapHandle<K(==,!new)> {
    const skipMap: SkipMap<K>

    constructor (m: SkipMap<K>)
      ensures skipMap == m
    {
      skipMap := m;
    }

    /** `get(key).is_some()`. */
    method Get(key: K) returns (present: bool)
      ensures present <==> key in skipMap.entries
      ensures Apply(skipMap.entries, Op.Get(key)) == Outcome(skipMap.entries, present)
    {
      var v := skipMap.Get(key);
      present := v.Some?;
    }

    /** Check for absence, then store 0; report the result of the check. */
    method Insert(key: K) returns (inserted: bool)
      modifies skipMap
      ensures inserted <==> key !in old(skipMap.entries)
      ensures skipMap.entries == old(skipMap.entries)[key := 0]
      ensures Apply(old(skipMap.entries), Op.Insert(key)) == Outcome(skipMap.entries, inserted)
    {
      var before := skipMap.Get(key);
      var absent := before.None?;
      skipMap.Insert(key, 0);
      inserted := absent;
    }

    /** `remove(key).is_some()`. */
    method Remove(key: K) returns (removed: bool)
      modifies skipMap
      ensures removed <==> key in old(skipMap.entries)
      ensures skipMap.entries == old(skipMap.entries) - {key}
      ensures Apply(old(skipMap.entries), Op.Remove(key)) == Outcome(skipMap.entries, removed)
    {
      var v := skipMap.Remove(key);
      removed := v.Some?;
    }

    /** Read the entry; if absent return false without writing, otherwise
        write back its value plus one and return true. */
    method Update(key: K) returns (updated: bool)
      modifies skipMap
      ensures updated <==> key in old(skipMap.entries)
      ensures !updated ==> skipMap.entries == old(skipMap.entries)
      ensures updated ==> skipMap.entries == old(skipMap.entries)[key := old(skipMap.entries)[key] + 1]
      ensures Apply(old(skipMap.entries), Op.Update(key)) == Outcome(skipMap.entries, updated)
    {
      var entry := skipMap.Get(key);
      if entry.None? {
        return false;
      }
      skipMap.Insert(key, entry.value + 1);
      updated := true;
    }
  }

  /** Two handles pinned from one table share nothing: a key inserted through
      one is present there and absent through the other. */
  method PinnedHandlesShareNothing<K(==,!new)>(capacity: nat, key: K) returns (inserted: bool, seenByWriter: bool, seenByOther: bool)
    ensures inserted && seenByWriter && !seenByOther
  {
    var table := new CrossbeamSkipMapTable<K>.WithCapacity(capacity);
    var writer := table.Pin();
    var other := table.Pin();
    inserted := writer.Insert(key);
    seenByWriter := writer.Get(key);
    seenByOther := other.Get(key);
  }
}
