/** `MutexStdTable` and `RwLockStdTable` of `src/lib.rs`: a `HashMap` behind
    an `Arc` and a mutex or a read-write lock.  They behave like the other
    lock-based tables except that `insert` reports `is_some()`: true when the
    key was ALREADY present, the opposite of the handle contract's meaning. */
module LibTables {
  import opened Common
  import opened Capability
  import opened SharedMaps
  import MutexAdapter

  class MutexStdTable<K(==,!new)> {
    const shared: SharedMap<K>

    /** `with_capacity`: a fresh, empty map. */
    constructor WithCapacity(capacity: nat)
      ensures fresh(shared)
      ensures shared.entries == map[]
    {
      shared := new SharedMap();
    }

    /** The clone made by `pin`: another handle on the same map. */
    constructor Share(m: SharedMap<K>)
      ensures shared == m
    {
      shared := m;
    }

    /** `pin`: a new handle sharing this table's map. */
    method Pin() returns (h: MutexStdTable<K>)
      ensures fresh(h)
      ensures h.shared == shared
    {
      h := new MutexStdTable.Share(shared);
    }

    /** `get(key).is_some()`. */
    method Get(key: K) returns (present: bool)
      ensures present <==> key in shared.entries
      ensures Apply(shared.entries, Op.Get(key)) == Outcome(shared.entries, present)
    {
      var v := shared.Get(key);
      present := v.Some?;
    }

    /** `insert(key, 0).is_some()`: store 0, report that the key was already
        there, which is the negation of what the contract reports. */
    method Insert(key: K) returns (replaced: bool)
      modifies shared
      ensures replaced <==> key in old(shared.entries)
      ensures shared.entries == old(shared.entries)[key := 0]
      ensures Apply(old(shared.entries), Op.Insert(key)) == Outcome(shared.entries, !replaced)
    {
      var previous := shared.Insert(key, 0);
      replaced := previous.Some?;
    }

    /** `remove(key).is_some()`. */
    method Remove(key: K) returns (removed: bool)
      modifies shared
      ensures removed <==> key in old(shared.entries)
      ensures shared.entries == old(shared.entries) - {key}
      ensures Apply(old(shared.entries), Op.Remove(key)) == Outcome(shared.entries, removed)
    {
      var v := shared.Remove(key);
      removed := v.Some?;
    }

    /** `get_mut(key).map(|v| *v += 1).is_some()`. */
    method Update(key: K) returns (updated: bool)
      modifies shared
      ensures updated <==> key in old(shared.entries)
      ensures !updated ==> shared.entries == old(shared.entries)
      ensures updated ==> shared.entries == old(shared.entries)[key := old(shared.entries)[key] + 1]
      ensures Apply(old(shared.entries), Op.Update(key)) == Outcome(shared.entries, updated)
    {
      updated := shared.IncrementInPlace(key);
    }
  }

  class RwLockStdTable<K(==,!new)> {
    const shared: SharedMap<K>

    /** `with_capacity`: a fresh, empty map. */
    constructor WithCapacity(capacity: nat)
      ensures fresh(shared)
      ensures shared.entries == map[]
    {
      shared := new SharedMap();
    }

    /** The clone made by `pin`: another handle on the same map. */
    constructor Share(m: SharedMap<K>)
      ensures shared == m
    {
      shared := m;
    }

    /** `pin`: a new handle sharing this table's map. */
    method Pin() returns (h: RwLockStdTable<K>)
      ensures fresh(h)
      ensures h.shared == shared
    {
      h := new RwLockStdTable.Share(shared);
    }

    /** `read().get(key).is_some()`. */
    method Get(key: K) returns (present: bool)
      ensures present <==> key in shared.entries
      ensures Apply(shared.entries, Op.Get(key)) == Outcome(shared.entries, present)
    {
      var v := shared.Get(key);
      present := v.Some?;
    }

    /** `write().insert(key, 0).is_some()`: as in the mutex table, true when
        the key was already present. */
    method Insert(key: K) returns (replaced: bool)
      modifies shared
      ensures replaced <==> key in old(shared.entries)
      ensures shared.entries == old(shared.entries)[key := 0]
      ensures Apply(old(shared.entries), Op.Insert(key)) == Outcome(shared.entries, !replaced)
    {
      var previous := shared.Insert(key, 0);
      replaced := previous.Some?;
    }

    /** `write().remove(key).is_some()`. */
    method Remove(key: K) returns (removed: bool)
      modifies shared
      ensures removed <==> key in old(shared.entries)
      ensures shared.entries == old(shared.entries) - {key}
      ensures Apply(old(shared.entries), Op.Remove(key)) == Outcome(shared.entries, removed)
    {
      var v := shared.Remove(key);
      removed := v.Some?;
    }

    /** `write().get_mut(key).map(|v| *v += 1).is_some()`. */
    method Update(key: K) returns (updated: bool)
      modifies shared
      ensures updated <==> key in old(shared.entries)
      ensures !updated ==> shared.entries == old(shared.entries)
      ensures updated ==> shared.entries == old(shared.entries)[key := old(shared.entries)[key] + 1]
      ensures Apply(old(shared.entries), Op.Update(key)) == Outcome(shared.entries, updated)
    {
      updated := shared.IncrementInPlace(key);
    }
  }

  /** The reports of a log under the `is_some()` insert convention: every
      Insert's report is negated, every other report is kept. */
  function InsertInverted<K>(ops: seq<Op<K>>, reported: seq<bool>): (r: seq<bool>)
    requires |reported| == |ops|
    ensures |r| == |ops|
    ensures forall j :: 0 <= j < |ops| ==> (r[j] != reported[j] <==> ops[j].Insert?)
  {
    seq(|ops|, j requires 0 <= j < |ops| => if ops[j].Insert? then !reported[j] else reported[j])
  }

  /** The mutex and the read-write-lock tables of this file behave the same
      on every log of calls, and each reports what the handle contract
      reports except that every Insert's report is negated. */
  method MutexAndRwLockAgree<K(==,!new)>(capacity: nat, ops: seq<Op<K>>) returns (viaMutex: seq<bool>, viaRwLock: seq<bool>)
    ensures viaMutex == viaRwLock
    ensures viaMutex == InsertInverted(ops, Replay(map[], ops).1)
  {
    var mutex := new MutexStdTable<K>.WithCapacity(capacity);
    var rwlock := new RwLockStdTable<K>.WithCapacity(capacity);
    var hm := mutex.Pin();
    var hr := rwlock.Pin();
    viaMutex, viaRwLock := [], [];
    var i := 0;
    while i < |ops|
      invariant 0 <= i <= |ops|
      invariant hm.shared != hr.shared
      invariant hm.shared.entries == hr.shared.entries == Replay(map[], ops[..i]).0
      invariant viaMutex == viaRwLock == InsertInverted(ops[..i], Replay(map[], ops[..i]).1)
    {
      var a, b;
      match ops[i] {
        case Get(k) => a := hm.Get(k); b := hr.Get(k);
        case Insert(k) => a := hm.Insert(k); b := hr.Insert(k);
        case Remove(k) => a := hm.Remove(k); b := hr.Remove(k);
        case Update(k) => a := hm.Update(k); b := hr.Update(k);
      }
      ReplaySnoc(map[], ops[..i], ops[i]);
      assert ops[..i + 1] == ops[..i] + [ops[i]];
      viaMutex, viaRwLock := viaMutex + [a], viaRwLock + [b];
      i := i + 1;
    }
    assert ops[..i] == ops;
  }

  /** On the same log, this file's mutex table and the mutex table of
      `src/adapters.rs` leave the same map and agree on every report except
      Insert's, which they report oppositely. */
  method InsertConventionsDisagree<K(==,!new)>(capacity: nat, ops: seq<Op<K>>) returns (viaAdapters: seq<bool>, viaLib: seq<bool>)
    ensures viaAdapters == Replay(map[], ops).1
    ensures viaLib == InsertInverted(ops, viaAdapters)
  {
    var adaptersTable := new MutexAdapter.MutexStdTable<K>.WithCapacity(capacity);
    var libTable := new MutexStdTable<K>.WithCapacity(capacity);
    var ha := adaptersTable.Pin();
    var hl := libTable.Pin();
    viaAdapters, viaLib := [], [];
    var i := 0;
    while i < |ops|
      invariant 0 <= i <= |ops|
      invariant ha.shared != hl.shared
      invariant ha.shared.entries == hl.shared.entries == Replay(map[], ops[..i]).0
      invariant viaAdapters == Replay(map[], ops[..i]).1
      invariant viaLib == InsertInverted(ops[..i], viaAdapters)
    {
      var a, b;
      match ops[i] {
        case Get(k) => a := ha.Get(k); b := hl.Get(k);
        case Insert(k) => a := ha.Insert(k); b := hl.Insert(k);
        case Remove(k) => a := ha.Remove(k); b := hl.Remove(k);
        case Update(k) => a := ha.Update(k); b := hl.Update(k);
      }
      ReplaySnoc(map[], ops[..i], ops[i]);
      assert ops[..i + 1] == ops[..i] + [ops[i]];
      viaAdapters, viaLib := viaAdapters + [a], viaLib + [b];
      i := i + 1;
    }
    assert ops[..i] == ops;
  }
}
