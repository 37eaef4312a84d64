/** The integer and ordering logic of the plotting command: grouping the
    CSV records by case name into an ordered map, the colour of each series,
    the largest thread count (x-axis bound), the largest latency clamped by
    the configured limit (latency y-axis bound), and the output file paths.
    Reading the CSV and drawing the SVG are not modelled. */
module Plot {
  import opened Common
  import opened Records
  import opened StringOrder

  /** One entry of the `BTreeMap<String, Vec<Record>>`. */
  datatype Group = Group(name: string, records: seq<Record>)

  // ---------------------------------------------------------------------
  // The ordered map, as the list of its entries in ascending key order.

  /** The keys of the map. */
  function Names(groups: seq<Group>): (r: set<string>)
    ensures forall j :: 0 <= j < |groups| ==> groups[j].name in r
    ensures forall k :: k in r ==> exists j :: 0 <= j < |groups| && groups[j].name == k
  {
    if groups == [] then {} else {groups[0].name} + Names(groups[1..])
  }

  /** Keys strictly ascending: each key is below every later one. */
  ghost predicate Sorted(groups: seq<Group>)
  {
    groups == [] ||
    ((forall k :: k in Names(groups[1..]) ==> Below(groups[0].name, k)) && Sorted(groups[1..]))
  }

  /** The records stored under key `k`, or none when `k` is not a key. */
  function RecordsOf(groups: seq<Group>, k: string): seq<Record>
  {
    if groups == [] then []
    else if groups[0].name == k then groups[0].records
    else RecordsOf(groups[1..], k)
  }

  /** The number of records held by all groups together. */
  function Total(groups: seq<Group>): nat
  {
    if groups == [] then 0 else |groups[0].records| + Total(groups[1..])
  }

  /** `groups.values().flatten()`: all records, group after group. */
  function Flatten(groups: seq<Group>): (r: seq<Record>)
    ensures forall j, x :: 0 <= j < |groups| && x in groups[j].records ==> x in r
  {
    if groups == [] then [] else groups[0].records + Flatten(groups[1..])
  }

  // ---------------------------------------------------------------------
  // The reference meaning of grouping, on the input sequence.

  /** The records named `k`, in input order. */
  function Filter(records: seq<Record>, k: string): (r: seq<Record>)
    ensures forall x :: x in r <==> x in records && x.name == k
  {
    if records == [] then []
    else
      var last := records[|records| - 1];
      Filter(records[..|records| - 1], k) + (if last.name == k then [last] else [])
  }

  /** The distinct names among the records. */
  function NamesOf(records: seq<Record>): (r: set<string>)
    ensures forall k :: k in r <==> exists i :: 0 <= i < |records| && records[i].name == k
  {
    if records == [] then {}
    else NamesOf(records[..|records| - 1]) + {records[|records| - 1].name}
  }

  /** What `group_data` promises of its result for `records`. */
  ghost predicate GroupsOf(records: seq<Record>, groups: seq<Group>)
  {
    && Sorted(groups)
    && (forall k :: RecordsOf(groups, k) == Filter(records, k))
    && Names(groups) == NamesOf(records)
    && (forall j :: 0 <= j < |groups| ==> groups[j].records != [])
    && Total(groups) == |records|
  }

  lemma {:induction false} RecordsOfAbsent(groups: seq<Group>, k: string)
    requires k !in Names(groups)
    ensures RecordsOf(groups, k) == []
  {
    if groups != [] {
      RecordsOfAbsent(groups[1..], k);
    }
  }

  /** A key below the first key of a sorted map is below all its keys. */
  lemma BelowAllNames(k: string, groups: seq<Group>)
    requires Sorted(groups) && groups != [] && Below(k, groups[0].name)
    ensures forall n :: n in Names(groups) ==> Below(k, n)
    ensures k !in Names(groups)
  {
    forall n | n in Names(groups)
      ensures Below(k, n)
    {
      if n != groups[0].name {
        BelowTransitive(k, groups[0].name, n);
      }
    }
    if k in Names(groups) {
      BelowIrreflexive(k);
    }
  }

  /** `groups.entry(record.name.clone()).or_insert_with(Vec::new).push(record)`:
      append the record to the group of its name, creating that group at its
      place in key order when the name is new. */
  function PushRecord(groups: seq<Group>, r: Record): (res: seq<Group>)
    ensures |res| == |groups| || |res| == |groups| + 1
  {
    if groups == [] then
      [Group(r.name, [r])]
    else if groups[0].name == r.name then
      [groups[0].(records := groups[0].records + [r])] + groups[1..]
    else if Below(r.name, groups[0].name) then
      [Group(r.name, [r])] + groups
    else
      [groups[0]] + PushRecord(groups[1..], r)
  }

  /** Pushing a record adds its name to the keys and one record to the total,
      and never leaves an empty group behind. */
  lemma {:induction false} PushRecordCounts(groups: seq<Group>, r: Record)
    ensures Names(PushRecord(groups, r)) == Names(groups) + {r.name}
    ensures Total(PushRecord(groups, r)) == Total(groups) + 1
    ensures (forall j :: 0 <= j < |groups| ==> groups[j].records != []) ==>
              forall j :: 0 <= j < |PushRecord(groups, r)| ==> PushRecord(groups, r)[j].records != []
  {
    var res := PushRecord(groups, r);
    if groups == [] {
    } else if groups[0].name == r.name {
      assert res[1..] == groups[1..];
    } else if Below(r.name, groups[0].name) {
      assert res[1..] == groups;
    } else {
      PushRecordCounts(groups[1..], r);
      assert res[1..] == PushRecord(groups[1..], r);
    }
  }

  /** Pushing keeps the keys in strictly ascending order. */
  lemma {:induction false} PushRecordSorted(groups: seq<Group>, r: Record)
    requires Sorted(groups)
    ensures Sorted(PushRecord(groups, r))
  {
    var res := PushRecord(groups, r);
    if groups == [] {
      assert res[1..] == [];
    } else if groups[0].name == r.name {
      assert res[1..] == groups[1..];
    } else if Below(r.name, groups[0].name) {
      BelowAllNames(r.name, groups);
      assert res[1..] == groups;
    } else {
      BelowTotal(r.name, groups[0].name);
      PushRecordSorted(groups[1..], r);
      PushRecordCounts(groups[1..], r);
      assert res[1..] == PushRecord(groups[1..], r);
    }
  }

  /** Pushing appends the record to its own name's records and to no others. */
  lemma {:induction false} PushRecordAppends(groups: seq<Group>, r: Record, k: string)
    requires Sorted(groups)
    ensures RecordsOf(PushRecord(groups, r), k) == RecordsOf(groups, k) + (if k == r.name then [r] else [])
  {
    var res := PushRecord(groups, r);
    if groups == [] {
    } else if groups[0].name == r.name {
      assert res[1..] == groups[1..];
    } else if Below(r.name, groups[0].name) {
      BelowAllNames(r.name, groups);
      RecordsOfAbsent(groups, r.name);
      assert res[1..] == groups;
    } else {
      PushRecordAppends(groups[1..], r, k);
      assert res[1..] == PushRecord(groups[1..], r);
    }
  }

  /** `group_data`: one pass over the records, pushing each into the group
      of its name.  The result is keyed by the distinct names in ascending
      order; each group holds exactly the records of its name, in input
      order, and is never empty; together they hold every record once. */
  method GroupData(records: seq<Record>) returns (groups: seq<Group>)
    ensures Sorted(groups)
    ensures forall k :: RecordsOf(groups, k) == Filter(records, k)
    ensures Names(groups) == NamesOf(records)
    ensures forall j :: 0 <= j < |groups| ==> groups[j].records != []
    ensures Total(groups) == |records|
  {
    groups := [];
    var i := 0;
    while i < |records|
      invariant 0 <= i <= |records|
      invariant Sorted(groups)
      invariant forall k :: RecordsOf(groups, k) == Filter(records[..i], k)
      invariant Names(groups) == NamesOf(records[..i])
      invariant forall j :: 0 <= j < |groups| ==> groups[j].records != []
      invariant Total(groups) == i
    {
      assert records[..i + 1][..i] == records[..i];
      PushRecordCounts(groups, records[i]);
      PushRecordSorted(groups, records[i]);
      forall k
        ensures RecordsOf(PushRecord(groups, records[i]), k) == Filter(records[..i + 1], k)
      {
        PushRecordAppends(groups, records[i], k);
      }
      groups := PushRecord(groups, records[i]);
      i := i + 1;
    }
    assert records[..i] == records;
  }

  // ---------------------------------------------------------------------
  // What the grouping guarantees.

  /** Keys ascend strictly across the whole map, not only from the first. */
  lemma {:induction false} SortedAscending(groups: seq<Group>)
    requires Sorted(groups)
    ensures forall i, j :: 0 <= i < j < |groups| ==> Below(groups[i].name, groups[j].name)
  {
    if groups != [] {
      SortedAscending(groups[1..]);
      forall i, j | 0 <= i < j < |groups|
        ensures Below(groups[i].name, groups[j].name)
      {
        if i > 0 {
          assert groups[i].name == groups[1..][i - 1].name;
          assert groups[j].name == groups[1..][j - 1].name;
        } else {
          assert groups[j].name == groups[1..][j - 1].name;
        }
      }
    }
  }

  /** In a sorted map, looking up an entry's key finds that entry. */
  lemma {:induction false} RecordsOfAt(groups: seq<Group>, j: nat)
    requires Sorted(groups) && j < |groups|
    ensures RecordsOf(groups, groups[j].name) == groups[j].records
  {
    if j > 0 {
      assert groups[j] == groups[1..][j - 1];
      BelowIrreflexive(groups[0].name);
      RecordsOfAt(groups[1..], j - 1);
    }
  }

  /** In a sorted map every key occurs once, so there are as many keys as entries. */
  lemma {:induction false} NamesCount(groups: seq<Group>)
    requires Sorted(groups)
    ensures |Names(groups)| == |groups|
  {
    if groups != [] {
      NamesCount(groups[1..]);
      if groups[0].name in Names(groups[1..]) {
        BelowIrreflexive(groups[0].name);
      }
    }
  }

  /** Filtering distributes over concatenation: records from an earlier
      part of the input come before those from a later part. */
  lemma {:induction false} FilterConcat(a: seq<Record>, b: seq<Record>, k: string)
    ensures Filter(a + b, k) == Filter(a, k) + Filter(b, k)
    decreases |b|
  {
    if b != [] {
      var b' := b[..|b| - 1];
      assert (a + b)[..|a + b| - 1] == a + b';
      FilterConcat(a, b', k);
    } else {
      assert a + b == a;
    }
  }

  /** Each group holds exactly the records of its key, in input order, and
      no two groups share a key. */
  lemma GroupContents(records: seq<Record>, groups: seq<Group>)
    requires GroupsOf(records, groups)
    ensures forall j :: 0 <= j < |groups| ==> groups[j].records == Filter(records, groups[j].name)
    ensures forall j, x :: 0 <= j < |groups| && x in groups[j].records ==> x in records && x.name == groups[j].name
    ensures forall j, j' :: 0 <= j < j' < |groups| ==> groups[j].name != groups[j'].name
  {
    forall j | 0 <= j < |groups|
      ensures groups[j].records == Filter(records, groups[j].name)
    {
      RecordsOfAt(groups, j);
    }
    SortedAscending(groups);
    forall j, j' | 0 <= j < j' < |groups|
      ensures groups[j].name != groups[j'].name
    {
      if groups[j].name == groups[j'].name {
        BelowIrreflexive(groups[j].name);
      }
    }
  }

  /** Every input record lies in the group of its name; with GroupContents,
      in that group only. */
  lemma GroupPlacement(records: seq<Record>, groups: seq<Group>, i: nat)
    requires GroupsOf(records, groups) && i < |records|
    ensures exists j :: 0 <= j < |groups| && groups[j].name == records[i].name && records[i] in groups[j].records
  {
    var name := records[i].name;
    assert name in NamesOf(records);
    var j :| 0 <= j < |groups| && groups[j].name == name;
    RecordsOfAt(groups, j);
    assert records[i] in Filter(records, name);
  }

  /** There are exactly as many groups as distinct names, none of them empty. */
  lemma GroupCount(records: seq<Record>, groups: seq<Group>)
    requires GroupsOf(records, groups)
    ensures |groups| == |NamesOf(records)|
    ensures records == [] <==> groups == []
  {
    NamesCount(groups);
    if records != [] {
      assert records[0].name in NamesOf(records);
    }
  }

  lemma {:induction false} FlattenMembers(groups: seq<Group>)
    ensures forall x :: x in Flatten(groups) <==> exists j :: 0 <= j < |groups| && x in groups[j].records
  {
    if groups != [] {
      FlattenMembers(groups[1..]);
      forall x | x in Flatten(groups)
        ensures exists j :: 0 <= j < |groups| && x in groups[j].records
      {
        if x !in groups[0].records {
          assert x in Flatten(groups[1..]);
          var j :| 0 <= j < |groups[1..]| && x in groups[1..][j].records;
          assert groups[j + 1] == groups[1..][j];
        }
      }
      forall x, j | 0 <= j < |groups| && x in groups[j].records
        ensures x in Flatten(groups)
      {
        if j > 0 {
          assert groups[j] == groups[1..][j - 1];
        }
      }
    }
  }

  /** Flattening the groups yields exactly the input records. */
  lemma FlattenIsInput(records: seq<Record>, groups: seq<Group>)
    requires GroupsOf(records, groups)
    ensures forall x :: x in Flatten(groups) <==> x in records
    ensures |Flatten(groups)| == |records|
  {
    FlattenMembers(groups);
    GroupContents(records, groups);
    forall i | 0 <= i < |records|
      ensures records[i] in Flatten(groups)
    {
      GroupPlacement(records, groups, i);
    }
    FlattenLength(groups);
  }

  lemma {:induction false} FlattenLength(groups: seq<Group>)
    ensures |Flatten(groups)| == Total(groups)
  {
    if groups != [] {
      FlattenLength(groups[1..]);
    }
  }

  // ---------------------------------------------------------------------
  // Axis bounds.

  function Max(a: nat, b: nat): (m: nat)
    ensures a <= m && b <= m
    ensures m == a || m == b
  {
    if a >= b then a else b
  }

  /** The thread-count half of the fold `(res.0.max(cur.0), ...)` from 0. */
  function MaxThreads(rs: seq<Record>): (m: nat)
    ensures forall i :: 0 <= i < |rs| ==> rs[i].threads <= m
    ensures rs == [] ==> m == 0
    ensures rs != [] ==> exists i :: 0 <= i < |rs| && rs[i].threads == m
  {
    if rs == [] then 0
    else
      var prefix := rs[..|rs| - 1];
      assert forall i :: 0 <= i < |prefix| ==> prefix[i] == rs[i];
      Max(MaxThreads(prefix), rs[|rs| - 1].threads)
  }

  /** `Duration::max`; durations compare by their length. */
  function MaxDuration(a: Duration, b: Duration): (m: Duration)
    ensures AsNanos(a) <= AsNanos(m) && AsNanos(b) <= AsNanos(m)
    ensures m == a || m == b
    ensures AsNanos(a) == AsNanos(b) ==> m == b
  {
    if AsNanos(b) >= AsNanos(a) then b else a
  }

  /** The latency half of the fold, from a zero duration. */
  function MaxLatency(rs: seq<Record>): (d: Duration)
    ensures forall i :: 0 <= i < |rs| ==> AsNanos(rs[i].latency) <= AsNanos(d)
    ensures rs == [] ==> d == Duration(0, 0)
    ensures rs != [] ==> exists i :: 0 <= i < |rs| && rs[i].latency == d
  {
    if rs == [] then Duration(0, 0)
    else
      var prefix := rs[..|rs| - 1];
      assert forall i :: 0 <= i < |prefix| ==> prefix[i] == rs[i];
      MaxDuration(MaxLatency(prefix), rs[|rs| - 1].latency)
  }

  /** Over a subset of the records, both folds give no more. */
  lemma MaxOfSubset(a: seq<Record>, b: seq<Record>)
    requires forall x :: x in a ==> x in b
    ensures MaxThreads(a) <= MaxThreads(b)
    ensures AsNanos(MaxLatency(a)) <= AsNanos(MaxLatency(b))
  {
    if a != [] {
      var ta :| 0 <= ta < |a| && a[ta].threads == MaxThreads(a);
      assert a[ta] in b;
      var la :| 0 <= la < |a| && a[la].latency == MaxLatency(a);
      assert a[la] in b;
    }
  }

  /** Both folds depend only on which records there are, not on their order
      or on how they are grouped. */
  lemma MaxSameElements(a: seq<Record>, b: seq<Record>)
    requires forall x :: x in a <==> x in b
    ensures MaxThreads(a) == MaxThreads(b)
    ensures MaxLatency(a) == MaxLatency(b)
  {
    MaxOfSubset(a, b);
    MaxOfSubset(b, a);
    AsNanosInjective(MaxLatency(a), MaxLatency(b));
  }

  /** The x-axis bound of both charts: the largest thread count. */
  function XAxisMax(groups: seq<Group>): (x: nat)
    ensures forall i :: 0 <= i < |Flatten(groups)| ==> Flatten(groups)[i].threads <= x
    ensures Flatten(groups) == [] ==> x == 0
    ensures Flatten(groups) != [] ==> exists i :: 0 <= i < |Flatten(groups)| && Flatten(groups)[i].threads == x
  {
    MaxThreads(Flatten(groups))
  }

  /** `u64::min`: the smaller argument. */
  function MinU64(a: u64, b: u64): (m: u64)
    ensures m <= a && m <= b
    ensures m == a || m == b
  {
    if a <= b then a else b
  }

  /** The latency y-axis bound: `latency_limit_ns.min(y_max.as_nanos() as u64)`. */
  function LatencyAxisMax(groups: seq<Group>, limit: u64): (y: u64)
    ensures y <= limit
    ensures AsNanos(MaxLatency(Flatten(groups))) < U64_LIMIT ==>
      forall i :: 0 <= i < |Flatten(groups)| ==> MinU64(limit, AsNanos(Flatten(groups)[i].latency)) <= y
    ensures y == limit || y == EncodeNanos(MaxLatency(Flatten(groups)))
    ensures y <= EncodeNanos(MaxLatency(Flatten(groups)))
  {
    MinU64(limit, EncodeNanos(MaxLatency(Flatten(groups))))
  }

  /** For the groups of some records, the x-axis bound is the largest thread
      count among them (0 when there are none), and the latency bound is the
      smaller of the limit and the largest latency truncated to 64 bits
      (exactly that latency when it is under 2^64 ns). */
  lemma AxisBoundsOfRecords(records: seq<Record>, groups: seq<Group>, limit: u64)
    requires GroupsOf(records, groups)
    ensures XAxisMax(groups) == MaxThreads(records)
    ensures records == [] ==> XAxisMax(groups) == 0
    ensures forall i :: 0 <= i < |records| ==> records[i].threads <= XAxisMax(groups)
    ensures LatencyAxisMax(groups, limit) <= limit
    ensures LatencyAxisMax(groups, limit) == MinU64(limit, EncodeNanos(MaxLatency(records)))
    ensures AsNanos(MaxLatency(records)) < U64_LIMIT ==>
      LatencyAxisMax(groups, limit) == MinU64(limit, AsNanos(MaxLatency(records)))
  {
    FlattenIsInput(records, groups);
    MaxSameElements(Flatten(groups), records);
  }

  // ---------------------------------------------------------------------
  // Series colours and legend labels.

  datatype Color = Blue | Red | Green | Magenta | Cyan | Black | Yellow

  const COLORS: seq<Color> := [Blue, Red, Green, Magenta, Cyan, Black, Yellow]

  /** `COLORS.iter().cycle()`, at position `i`. */
  function ColorOf(i: nat): (c: Color)
    ensures c == COLORS[i % 7]
  {
    if i < |COLORS| then COLORS[i] else ColorOf(i - |COLORS|)
  }

  /** Two series share a colour exactly when their positions are congruent
      modulo seven. */
  lemma ColorCycle(i: nat, j: nat)
    ensures ColorOf(i) == ColorOf(j) <==> i % 7 == j % 7
  {
  }

  /** `groups.values().zip(colors)`, labelled with `records[0].name`. */
  function Legend(groups: seq<Group>): (r: seq<(string, Color)>)
    requires forall j :: 0 <= j < |groups| ==> groups[j].records != []
    ensures |r| == |groups|
  {
    seq(|groups|, i requires 0 <= i < |groups| => (groups[i].records[0].name, ColorOf(i)))
  }

  /** Series i, the i-th name in ascending order, is labelled with its
      group's key and drawn in colour i mod 7. */
  lemma LegendLabels(records: seq<Record>, groups: seq<Group>)
    requires GroupsOf(records, groups)
    ensures forall i :: 0 <= i < |groups| ==> Legend(groups)[i] == (groups[i].name, COLORS[i % 7])
  {
    GroupContents(records, groups);
    forall i | 0 <= i < |groups|
      ensures groups[i].records[0].name == groups[i].name
    {
      assert groups[i].records[0] in groups[i].records;
    }
  }

  // ---------------------------------------------------------------------
  // Output paths.

  function ThroughputPath(dir: string, name: string): (p: string)
    ensures |p| == |dir| + |name| + 16
    ensures p[..|dir| + 1] == dir + "/"
    ensures p[|dir| + 1..|dir| + 1 + |name|] == name
    ensures p[|p| - 15..] == ".throughput.svg"
  {
    dir + "/" + name + ".throughput.svg"
  }

  function LatencyPath(dir: string, name: string): (p: string)
    ensures |p| == |dir| + |name| + 13
    ensures p[..|dir| + 1] == dir + "/"
    ensures p[|dir| + 1..|dir| + 1 + |name|] == name
    ensures p[|p| - 12..] == ".latency.svg"
  {
    dir + "/" + name + ".latency.svg"
  }

  /** The two charts never overwrite each other, whatever the names. */
  lemma PathsDistinct(dir: string, name: string, dir': string, name': string)
    ensures ThroughputPath(dir, name) != LatencyPath(dir', name')
  {
    var t := ThroughputPath(dir, name);
    var l := LatencyPath(dir', name');
    assert t[|t| - 5] == 't';
    assert l[|l| - 5] == 'y';
  }

  /** In one directory, different chart names give different paths. */
  lemma PathsInjective(dir: string, name: string, name': string)
    requires name != name'
    ensures ThroughputPath(dir, name) != ThroughputPath(dir, name')
    ensures LatencyPath(dir, name) != LatencyPath(dir, name')
  {
    if ThroughputPath(dir, name) == ThroughputPath(dir, name') {
      InfixCancels(dir + "/", name, name', ".throughput.svg");
    }
    if LatencyPath(dir, name) == LatencyPath(dir, name') {
      InfixCancels(dir + "/", name, name', ".latency.svg");
    }
  }

  lemma InfixCancels(p: string, a: string, b: string, q: string)
    requires p + a + q == p + b + q
    ensures a == b
  {
    assert |a| == |b|;
    assert a == (p + a + q)[|p|..|p| + |a|];
    assert b == (p + b + q)[|p|..|p| + |b|];
  }


}
