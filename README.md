# conc-map-bench, modelled in Dafny

conc-map-bench benchmarks concurrent hash maps. Each map is wrapped in an
adapter: a *table* (`Collection`) built with `with_capacity` and `pin`ned into
per-thread *handles* (`CollectionHandle`). Each handle answers `get`,
`insert`, `remove` and `update` with a boolean. The bench driver does three
things:
- It picks a workload (read-heavy, exchange, rapid-grow) and a list of thread
  counts.
- It runs one workload per thread count.
- It reports one record per run.

The plotter reads the records back and groups them by map name. It then draws
a throughput chart and a latency chart with a shared colour cycle.

This project models the following, and proves the properties listed under
"## Model":
- The lock-based and skip-list adapters.
- The workload presets.
- The thread-count generator and the per-case loop.
- The record format's nanosecond encoding.
- The plotter's grouping and axis-bound folds.

Modules:

- `Capability`: the handle contract as a reference function
  `Apply(map, op) -> (map', reported)` over an abstract key→value map, plus
  `Replay` over a sequence of operations. Every adapter method is proved
  against `Apply`.
- `SharedMaps`: the standard map (`HashMap`/`BTreeMap`) that sits behind a
  lock, as a class whose `entries` field the methods update.
- `StdAdapter`, `BTreeMapAdapter`, `MutexAdapter`, `LibTables`: tables
  whose `pin` hands out a handle over the *same* map, since they share it
  through an `Arc`.
  - `LibTables` holds the two tables of `src/lib.rs`. Their `insert` returns
    `is_some()`, which is the inverse of the other adapters' convention.
  - This is modelled as written. `LibTables.InsertConventionsDisagree` states
    the exact relation between the two conventions over any operation
    sequence.
- `SkipMapAdapter`: a table with no state, whose `pin` gives each handle a
  fresh, empty skip map. Handles therefore share nothing.
- `Workloads`, `Bench`: workload selection and the benchmark driver. The
  engine's run of a workload is a caller-supplied function.
- `Records`: `Duration` as seconds plus sub-second nanoseconds, and its CSV
  encoding as a `u64` nanosecond count (`as u64` truncates).
- `StringOrder`, `Plot`: `BTreeMap<String, Vec<Record>>` as a strictly
  sorted association list, the grouping loop, the axis folds, the colour
  cycle and the output paths.

Map values (`u32` in the source) are `nat`. Explicit `as u32` and `as u64`
casts are written out as reductions modulo 2^32 and 2^64 (`Common.AsU32`,
`Common.AsU64`).

The two `src/lib.rs` tables return `insert(..).is_some()`, the inverse of
the other adapters. Nothing in these files normalises this, and the model
keeps it (`LibTables.InsertConventionsDisagree`).

## Model

| member | source | states |
|---|---|---|
| Common.AsU32 | src/bench.rs:77 | `n as u32` is the identity below 2^32 and never exceeds its argument |
| Common.AsU64 | src/record.rs:33 | `as u64` is the identity below 2^64 and never exceeds its argument |
| Capability.Apply | src/adapters/std.rs:39-54 | one handle operation changes no key but its own; `get` changes nothing |
| Capability.InsertReportsAbsence | src/adapters/std.rs:43-45 | `insert` reports true exactly when the key was absent, and afterwards the key maps to 0 |
| Capability.UpdateNeverCreates | src/adapters/std.rs:51-54 | `update` on an absent key reports false and leaves the map unchanged |
| Capability.UpdateIncrements | src/adapters/std.rs:51-54 | `update` on a present key reports true and adds one to its value |
| Capability.RemoveLeavesAbsent | src/adapters/std.rs:47-49 | `remove` reports whether the key was present and leaves it absent |
| Capability.GetsDoNotChangeTheMap | src/adapters/std.rs:39-41 | dropping any `get` from an operation sequence leaves the final map unchanged |
| SharedMaps.SharedMap.constructor | src/adapters/std.rs:20-25 | a newly built standard map is empty |
| SharedMaps.SharedMap.Get | src/adapters/std.rs:40 | `get` returns the stored value exactly when the key is present |
| SharedMaps.SharedMap.Insert | src/adapters/std.rs:44 | `insert` returns the previous value and stores the new one |
| SharedMaps.SharedMap.Remove | src/adapters/std.rs:48 | `remove` returns the removed value and deletes the key |
| SharedMaps.SharedMap.IncrementInPlace | src/adapters/std.rs:53 | `get_mut(..).map(+1)` increments a present value and reports whether the key was there |
| StdAdapter.RwLockStdHashMapTable.WithCapacity | src/adapters/std.rs:20-25 | `with_capacity` makes a table over a fresh, empty map |
| StdAdapter.RwLockStdHashMapTable.Share | src/adapters/std.rs:10-11 | a clone shares the same map |
| StdAdapter.RwLockStdHashMapTable.Pin | src/adapters/std.rs:27-29 | `pin` hands out a new handle over the same map |
| StdAdapter.RwLockStdHashMapTable.Get | src/adapters/std.rs:39-41 | `get` reports presence, changes nothing, and agrees with `Apply` |
| StdAdapter.RwLockStdHashMapTable.Insert | src/adapters/std.rs:43-45 | `insert` reports absence, stores 0, and agrees with `Apply` |
| StdAdapter.RwLockStdHashMapTable.Remove | src/adapters/std.rs:47-49 | `remove` reports presence, deletes the key, and agrees with `Apply` |
| StdAdapter.RwLockStdHashMapTable.Update | src/adapters/std.rs:51-54 | `update` increments a present value, reports presence, and agrees with `Apply` |
| StdAdapter.PinnedHandlesShareOneMap | src/adapters/std.rs:20-29 | a key inserted through one pinned handle is visible through another |
| BTreeMapAdapter.RwLockBTreeMapTable.WithCapacity | src/adapters/btreemap.rs:18-20 | `with_capacity` ignores the capacity and makes a table over an empty map |
| BTreeMapAdapter.RwLockBTreeMapTable.Share | src/adapters/btreemap.rs:9-10 | a clone shares the same map |
| BTreeMapAdapter.RwLockBTreeMapTable.Pin | src/adapters/btreemap.rs:22-24 | `pin` hands out a new handle over the same map |
| BTreeMapAdapter.RwLockBTreeMapTable.Get | src/adapters/btreemap.rs:33-35 | `get` reports presence, changes nothing, and agrees with `Apply` |
| BTreeMapAdapter.RwLockBTreeMapTable.Insert | src/adapters/btreemap.rs:37-39 | `insert` reports absence, stores 0, and agrees with `Apply` |
| BTreeMapAdapter.RwLockBTreeMapTable.Remove | src/adapters/btreemap.rs:41-43 | `remove` reports presence, deletes the key, and agrees with `Apply` |
| BTreeMapAdapter.RwLockBTreeMapTable.Update | src/adapters/btreemap.rs:45-48 | `update` increments a present value, reports presence, and agrees with `Apply` |
| BTreeMapAdapter.CapacityIsIgnored | src/adapters/btreemap.rs:18-24 | whatever the capacity, a new table is empty, and its first insert succeeds and is seen by another handle |
| SkipMapAdapter.SkipMap.constructor | src/adapters/crossbeam_skiplist.rs:21 | `SkipMap::new()` is empty |
| SkipMapAdapter.SkipMap.Get | src/adapters/crossbeam_skiplist.rs:34 | `get` finds an entry exactly when the key is present |
| SkipMapAdapter.SkipMap.Insert | src/adapters/crossbeam_skiplist.rs:39 | `insert` stores the value, replacing any earlier one |
| SkipMapAdapter.SkipMap.Remove | src/adapters/crossbeam_skiplist.rs:44 | `remove` returns the entry and deletes the key |
| SkipMapAdapter.CrossbeamSkipMapTable.WithCapacity | src/adapters/crossbeam_skiplist.rs:16-18 | `with_capacity` allocates nothing and keeps no state: the class has no fields, so every handle's map comes from `Pin` |
| SkipMapAdapter.CrossbeamSkipMapTable.Pin | src/adapters/crossbeam_skiplist.rs:20-22 | every `pin` creates a fresh, empty skip map for the new handle |
| SkipMapAdapter.CrossbeamSkipMapHandle.constructor | src/adapters/crossbeam_skiplist.rs:25 | a handle wraps the skip map it is given |
| SkipMapAdapter.CrossbeamSkipMapHandle.Get | src/adapters/crossbeam_skiplist.rs:33-35 | `get(..).is_some()` reports presence and agrees with `Apply` |
| SkipMapAdapter.CrossbeamSkipMapHandle.Insert | src/adapters/crossbeam_skiplist.rs:37-41 | checking absence and then storing 0 reports absence and agrees with `Apply` |
| SkipMapAdapter.CrossbeamSkipMapHandle.Remove | src/adapters/crossbeam_skiplist.rs:43-45 | `remove(..).is_some()` reports presence, deletes, and agrees with `Apply` |
| SkipMapAdapter.CrossbeamSkipMapHandle.Update | src/adapters/crossbeam_skiplist.rs:47-55 | an absent key returns false with no write; a present one gets value+1; agrees with `Apply` |
| SkipMapAdapter.PinnedHandlesShareNothing | src/adapters/crossbeam_skiplist.rs:16-22 | the first insert through a new handle succeeds; the key is then seen through that handle and not through another handle of the same table |
| MutexAdapter.MutexStdTable.WithCapacity | src/adapters.rs:18-23 | `with_capacity` makes a table over a fresh, empty map |
| MutexAdapter.MutexStdTable.Share | src/adapters.rs:10-11 | a clone shares the same map |
| MutexAdapter.MutexStdTable.Pin | src/adapters.rs:25-27 | `pin` hands out a new handle over the same map |
| MutexAdapter.MutexStdTable.Get | src/adapters.rs:36-38 | `get` reports presence, changes nothing, and agrees with `Apply` |
| MutexAdapter.MutexStdTable.Insert | src/adapters.rs:40-42 | `insert(..).is_none()` reports absence, stores 0, and agrees with `Apply` |
| MutexAdapter.MutexStdTable.Remove | src/adapters.rs:44-46 | `remove` reports presence, deletes the key, and agrees with `Apply` |
| MutexAdapter.MutexStdTable.Update | src/adapters.rs:48-51 | `update` increments a present value, reports presence, and agrees with `Apply` |
| LibTables.MutexStdTable.WithCapacity | src/lib.rs:18-23 | `with_capacity` makes a table over a fresh, empty map |
| LibTables.MutexStdTable.Share | src/lib.rs:10-11 | a clone shares the same map |
| LibTables.MutexStdTable.Pin | src/lib.rs:25-27 | `pin` hands out a new handle over the same map |
| LibTables.MutexStdTable.Get | src/lib.rs:36-38 | `get` reports presence, changes nothing, and agrees with `Apply` |
| LibTables.MutexStdTable.Insert | src/lib.rs:40-42 | `insert(..).is_some()` reports that the key was *present*: the negation of `Apply`'s report, with the same new map |
| LibTables.MutexStdTable.Remove | src/lib.rs:44-46 | `remove` reports presence, deletes the key, and agrees with `Apply` |
| LibTables.MutexStdTable.Update | src/lib.rs:48-51 | `update` increments a present value, reports presence, and agrees with `Apply` |
| LibTables.RwLockStdTable.WithCapacity | src/lib.rs:62-67 | `with_capacity` makes a table over a fresh, empty map |
| LibTables.RwLockStdTable.Share | src/lib.rs:54-55 | a clone shares the same map |
| LibTables.RwLockStdTable.Pin | src/lib.rs:69-71 | `pin` hands out a new handle over the same map |
| LibTables.RwLockStdTable.Get | src/lib.rs:80-82 | `get` reports presence, changes nothing, and agrees with `Apply` |
| LibTables.RwLockStdTable.Insert | src/lib.rs:84-86 | `insert(..).is_some()` reports presence: the negation of `Apply`'s report, with the same new map |
| LibTables.RwLockStdTable.Remove | src/lib.rs:88-90 | `remove` reports presence, deletes the key, and agrees with `Apply` |
| LibTables.RwLockStdTable.Update | src/lib.rs:92-95 | `update` increments a present value, reports presence, and agrees with `Apply` |
| LibTables.MutexAndRwLockAgree | src/lib.rs:15-96 | the mutex table and the rwlock table give identical reports on every operation sequence |
| LibTables.InsertConventionsDisagree | src/lib.rs:40-42 | on any sequence, a `src/lib.rs` table's reports differ from the `src/adapters.rs` table's exactly at the inserts |
| Workloads.FromStr | src/workloads.rs:17-24 | parsing succeeds only on a workload's own name; every other string gives "unknown workload" |
| Workloads.FromStrName | src/workloads.rs:17-24 | every workload's name parses back to that workload |
| Workloads.NewWorkload | src/workloads.rs:36 | a new workload carries the given thread count and mix |
| Workloads.ReadHeavyPreset | src/workloads.rs:27-39 | mix exactly 98/1/1/0/0, so reads outweigh all other operations together; the mix sums to 100; capacity 2^24; prefill 0.8 |
| Workloads.RapidGrowPreset | src/workloads.rs:41-53 | mix exactly 5/80/5/10/0, so inserts outweigh all other operations together; the mix sums to 100; capacity 2^24; no prefill |
| Workloads.ExchangePreset | src/workloads.rs:55-67 | mix exactly 10/40/40/10/0, so inserts equal removes; the mix sums to 100; capacity 2^24; prefill 0.8 |
| Workloads.Create | src/workloads.rs:69-78 | the result is the preset of the requested kind with its operations multiplier replaced by the option; so it has the requested threads, a mix summing to 100, and prefill 0 exactly for rapid-grow |
| Workloads.CreateOnlyVariesThreads | src/workloads.rs:69-78 | two thread counts give the same workload apart from the thread count |
| Bench.ParseHasherKind | src/bench.rs:17-23 | only "std" and "ahash" parse; anything else gives the fixed error message |
| Bench.ParseHasherName | src/bench.rs:17-23 | every hasher's name parses back to that hasher |
| Bench.Find | src/bench.rs:61-65 | a name is found in the skip list exactly when it occurs there |
| Bench.StepBy | src/bench.rs:79 | `(lo..=hi).step_by(step)` is `lo, lo+step, …`, its last element is within `step` of `hi`, and it is empty when `lo > hi` |
| Bench.GenThreadsSmall | src/bench.rs:77 | with at most 10 CPUs the thread counts are 1..=n |
| Bench.GenThreadsMedium | src/bench.rs:78-80 | with 11 to 16 CPUs they are 1 followed by the even numbers up to n |
| Bench.GenThreadsLarge | src/bench.rs:81-83 | with more CPUs they are 1 followed by the multiples of 4 up to n |
| Bench.GenThreads | src/bench.rs:73-85 | the generated sweep is empty exactly when there are no CPUs, and every count lies in 1..=n |
| Bench.GenThreadsIncreasing | src/bench.rs:73-85 | the generated counts strictly increase |
| Bench.ThreadList | src/bench.rs:87-91 | an explicit thread list is used as given; otherwise the generated one is used |
| Bench.IsSkipped | src/bench.rs:61-65 | a case is skipped exactly when a skip list is given and contains its name |
| Bench.Case | src/bench.rs:56-99 | a skipped case produces no call; otherwise one call per thread count, in order, each carrying the measurement of the i-th run of the workload built for that count |
| Records.AsNanos | src/record.rs:33 | `as_nanos()` is the count whose whole seconds are `secs` and whose remainder is the sub-second nanoseconds |
| Records.FromNanos | src/record.rs:26 | `Duration::from_nanos(n)` has exactly n nanoseconds |
| Records.EncodeNanos | src/record.rs:33 | `as_nanos() as u64` is congruent to the exact count modulo 2^64 (the low 64 bits), and exact below 2^64 |
| Records.DecodeNanos | src/record.rs:22-27 | a decoded field has exactly the stored number of nanoseconds |
| Records.AsNanosInjective | src/record.rs:11 | durations with equal nanosecond counts are equal |
| Records.EncodeDecode | src/record.rs:22-34 | decoding then encoding gives back every `u64` |
| Records.DecodeEncode | src/record.rs:22-34 | encoding then decoding gives back a duration exactly when it is below 2^64 ns |
| Records.Serialize | src/record.rs:5-15 | writing a record copies name, total_ops, threads and throughput, and writes each duration as its nanosecond count truncated to the low 64 bits (exact when it fits) |
| Records.Deserialize | src/record.rs:5-15 | reading a row copies the plain fields and gives durations of exactly the stored nanosecond counts |
| Records.SerializeDeserialize | src/record.rs:5-15 | every CSV row survives a read followed by a write |
| Records.DeserializeSerialize | src/record.rs:5-15 | a record survives a write followed by a read exactly when both of its durations fit in 2^64 ns |
| StringOrder.BelowIrreflexive | src/plot.rs:40 | no map key sorts below itself |
| StringOrder.BelowTransitive | src/plot.rs:40 | key order is transitive |
| StringOrder.BelowAsymmetric | src/plot.rs:40 | key order is asymmetric |
| StringOrder.BelowTotal | src/plot.rs:40 | any two distinct keys are ordered one way or the other |
| Plot.Filter | src/plot.rs:45-48 | a name's records are exactly the input records with that name |
| Plot.PushRecord | src/plot.rs:46-47 | `entry(name).or_insert_with(Vec::new).push(r)` adds at most one group |
| Plot.PushRecordCounts | src/plot.rs:46-47 | pushing adds the name to the key set and one record to the total, and leaves no group empty |
| Plot.PushRecordSorted | src/plot.rs:46-47 | pushing keeps the keys strictly sorted |
| Plot.PushRecordAppends | src/plot.rs:46-47 | pushing appends the record to its own name's group and changes no other group |
| Plot.GroupData | src/plot.rs:42-51 | the groups are sorted by name, each name's group is its records in input order, the keys are exactly the input names, no group is empty, and no record is lost |
| Plot.SortedAscending | src/plot.rs:40 | sorted groups are pairwise in ascending key order |
| Plot.FilterConcat | src/plot.rs:45-48 | filtering a concatenation is concatenating the filters |
| Plot.GroupContents | src/plot.rs:42-51 | each group holds exactly the input records with its name, and names are distinct |
| Plot.GroupPlacement | src/plot.rs:45-48 | every input record lands in the group named after it |
| Plot.GroupCount | src/plot.rs:42-51 | there is one group per distinct name, and no groups exactly when there are no records |
| Plot.Flatten | src/plot.rs:62-64 | `values().flatten()` contains every record of every group |
| Plot.FlattenIsInput | src/plot.rs:62-64 | `values().flatten()` over the groups has the same elements and length as the input records |
| Plot.Max | src/plot.rs:66 | `max` on thread counts is one of its arguments and at least both |
| Plot.MaxThreads | src/plot.rs:62-66 | the thread fold bounds every record's threads, is attained, and is 0 with no records |
| Plot.MaxDuration | src/plot.rs:123 | `Duration::max` is one of its arguments, at least as long as both, and the second one on a tie |
| Plot.MaxLatency | src/plot.rs:118-124 | the latency fold bounds every record's latency, is attained, and is zero with no records |
| Plot.MaxSameElements | src/plot.rs:118-124 | the fold depends only on which records are present |
| Plot.XAxisMax | src/plot.rs:62-66 | the x-axis bound is at least every plotted record's thread count, is attained, and is 0 with no records |
| Plot.MinU64 | src/plot.rs:126 | `u64::min` is one of its arguments and at most both |
| Plot.LatencyAxisMax | src/plot.rs:126 | the latency axis bound is at most both the limit and the encoded maximum latency, and equals one of them: it is their minimum |
| Plot.AxisBoundsOfRecords | src/plot.rs:118-126 | over grouped records, the x bound is the threads fold over the original records, and the latency bound is `min(limit, max latency as u64)` over them, truncation included |
| Plot.ColorOf | src/plot.rs:86-88 | `COLORS.iter().cycle()`, stepped one colour at a time, gives `COLORS[i mod 7]` at position i |
| Plot.ColorCycle | src/plot.rs:86-88 | two groups get the same colour exactly when their positions agree modulo 7 |
| Plot.Legend | src/plot.rs:149-158 | the legend has one entry per group |
| Plot.LegendLabels | src/plot.rs:88-97 | entry i is group i's name with colour i mod 7 |
| Plot.ThroughputPath | src/plot.rs:56 | the throughput path is the directory, a slash, the chart name, then `.throughput.svg` |
| Plot.LatencyPath | src/plot.rs:112 | the latency path is the directory, a slash, the chart name, then `.latency.svg` |
| Plot.PathsDistinct | src/plot.rs:56 | the throughput and latency files never share a path |
| Plot.PathsInjective | src/plot.rs:112 | in one directory, different chart names give different latency paths and different throughput paths |

## Left out

- Concurrency: locks, `Arc`, `Send`/`Sync` bounds and interleavings are not
  modelled. Each handle call is one atomic step on the shared map, and the
  skip map's check-then-write `insert` is modelled sequentially.
- The benchmark engine (the `bustle` crate) is not part of this model:
  - operation-log generation, prefill, thread spawning, barriers and timing;
  - `Workload::run_silently` and the `Measurement` it returns. `Bench.Case`
    takes the run as a function parameter, of the run's position and the
    workload, and the measurement as a type parameter. A repeated thread
    count therefore need not give the same measurement;
  - the defaults of `Workload::new` and the `seed` field.
- The other adapters are not modelled: DashMap, dashmap_next, papaya, scc,
  flurry, contrie, chashmap and evmap. The same holds for the CHashMap,
  Contrie, Flurry and DashMap sections of `src/lib.rs` and `src/adapters.rs`,
  and for the `src/adapters/mod.rs` re-exports.
- Hashers (`ahash`, `RandomState`) do not change any adapter's result and are
  not modelled. Only the hasher-name parsing is.
- `gc_cycle` (a sleep plus epoch repinning) is left out: it is timing only.
  `num_cpus::get()` is a parameter of the thread-list functions.
- `run` and `run_hasher_variant` in `src/bench.rs` are left out. They only
  call `case` for fixed names and adapter types.
- `bench` in `src/bench.rs` is left out. It also builds the handler, which
  writes each measurement as a `Record` row or prints it. That handler is left
  out along with CSV writing and console output.
- `main.rs`, the criterion benches, argument parsing and all console output
  (`println!`/`eprintln!`) are left out.
- CSV reading and writing are left out: files, headers, `csv_no_headers`, and
  `read_data`'s panic on a malformed row. Only the field-level encoding of a
  record is modelled.
- Chart drawing (the SVG backend, margins, label formatting, series points)
  is not modelled. Neither is the floating-point throughput fold: `f64` values
  (`throughput`, the operations multiplier, the prefill fraction) are kept as
  uninterpreted `real` fields with no rounding or NaN.
- `COLORS` is modelled as seven named colours in the source order, not as
  RGB values.
- SharedMaps.SharedMap.IncrementInPlace: values are unbounded naturals, so the
  `u32` overflow of `*v += 1` at 2^32−1 is not modelled. The same holds for
  every adapter's `Update`.
- SkipMapAdapter.CrossbeamSkipMapHandle.Update: `entry.value() + 1` is
  modelled without `u32` overflow, for the same reason.
- Records.Duration order: `Duration`'s `Ord` is modelled as the order of the
  nanosecond counts. This is equivalent, because sub-second nanos are below
  10^9.
