/** The handle contract every benchmarked map adapter implements: four
    operations on one key, each reporting a boolean.  `Apply` is the
    reference meaning of one call on an abstract map from keys to stored
    values; the adapter classes are checked against it. */
module Capability {

  datatype Op<K> = Get(key: K) | Insert(key: K) | Remove(key: K) | Update(key: K)

  /** The map after one call, and the boolean the call reports. */
  datatype Outcome<K> = Outcome(entries: map<K, nat>, reported: bool)

  /** One handle call.  `Get` reports presence; `Insert` stores 0 and reports
      that the key was absent; `Remove` reports that something was removed;
      `Update` adds one to a present value and never creates a key. */
  function Apply<K(==,!new)>(m: map<K, nat>, op: Op<K>): (r: Outcome<K>)
    // no call touches a key other than its own
    ensures forall k :: k != op.key ==> (k in r.entries <==> k in m)
    ensures forall k :: k != op.key && k in m ==> r.entries[k] == m[k]
    // only Get is side-effect free on every input
    ensures op.Get? ==> r.entries == m
  {
    match op
    case Get(k) => Outcome(m, k in m)
    case Insert(k) => Outcome(m[k := 0], k !in m)
    case Remove(k) => Outcome(m - {k}, k in m)
    case Update(k) =>
      if k in m then Outcome(m[k := m[k] + 1], true) else Outcome(m, false)
  }

  /** Replaying a sequence of calls from one handle, in order: the final map
      and the boolean reported by each call. */
  function Replay<K(==,!new)>(m: map<K, nat>, ops: seq<Op<K>>): (r: (map<K, nat>, seq<bool>))
    ensures |r.1| == |ops|
    decreases |ops|
  {
    if ops == [] then (m, [])
    else
      var first := Apply(m, ops[0]);
      var rest := Replay(first.entries, ops[1..]);
      (rest.0, [first.reported] + rest.1)
  }

  /** Insert reports true exactly when a Get just before it would report false. */
  lemma InsertReportsAbsence<K(!new)>(m: map<K, nat>, k: K)
    ensures Apply(m, Insert(k)).reported == !Apply(m, Get(k)).reported
    ensures Apply(Apply(m, Insert(k)).entries, Get(k)).reported
    ensures !Apply(Apply(m, Insert(k)).entries, Insert(k)).reported
    ensures k in Apply(m, Insert(k)).entries && Apply(m, Insert(k)).entries[k] == 0
  {
  }

  /** Update on a key never inserted reports false, leaves the map as it was,
      and a following Get still reports absence. */
  lemma UpdateNeverCreates<K(!new)>(m: map<K, nat>, k: K)
    requires k !in m
    ensures Apply(m, Update(k)) == Outcome(m, false)
    ensures !Apply(Apply(m, Update(k)).entries, Get(k)).reported
  {
  }

  /** Update on a present key reports true and raises that value by exactly one. */
  lemma UpdateIncrements<K(!new)>(m: map<K, nat>, k: K)
    requires k in m
    ensures Apply(m, Update(k)).reported
    ensures k in Apply(m, Update(k)).entries && Apply(m, Update(k)).entries[k] == m[k] + 1
  {
  }

  /** Remove reports presence, and afterwards the key is absent. */
  lemma RemoveLeavesAbsent<K(!new)>(m: map<K, nat>, k: K)
    ensures Apply(m, Remove(k)).reported == Apply(m, Get(k)).reported
    ensures !Apply(Apply(m, Remove(k)).entries, Get(k)).reported
    ensures !Apply(Apply(m, Remove(k)).entries, Remove(k)).reported
  {
  }

  /** A Get anywhere in a replayed log changes nothing: dropping it leaves the
      final map unchanged. */
  lemma {:induction false} GetsDoNotChangeTheMap<K(!new)>(m: map<K, nat>, ops: seq<Op<K>>, i: nat)
    requires i < |ops| && ops[i].Get?
    ensures Replay(m, ops).0 == Replay(m, ops[..i] + ops[i + 1..]).0
    decreases |ops|
  {
    if i == 0 {
      assert ops[..i] + ops[i + 1..] == ops[1..];
    } else {
      var first := Apply(m, ops[0]);
      GetsDoNotChangeTheMap(first.entries, ops[1..], i - 1);
      assert ops[1..][..i - 1] + ops[1..][i..] == (ops[..i] + ops[i + 1..])[1..];
    }
  }

  /** Replaying one more call extends the replay by that call's outcome. */
  lemma {:induction false} ReplaySnoc<K(!new)>(m: map<K, nat>, ops: seq<Op<K>>, op: Op<K>)
    ensures Replay(m, ops + [op]).0 == Apply(Replay(m, ops).0, op).entries
    ensures Replay(m, ops + [op]).1 == Replay(m, ops).1 + [Apply(Replay(m, ops).0, op).reported]
    decreases |ops|
  {
    if ops == [] {
      assert ops + [op] == [op];
    } else {
      assert (ops + [op])[1..] == ops[1..] + [op];
      ReplaySnoc(Apply(m, ops[0]).entries, ops[1..], op);
    }
  }
}
