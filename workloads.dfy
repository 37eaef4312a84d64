/** The three workload presets and the parsing of their command-line names.
    A workload is the immutable configuration handed to the external
    benchmark engine: thread count, operation mix, initial capacity (as a
    power of two), prefill fraction and operation-count multiplier. */
module Workloads {
  import opened Common

  datatype WorkloadKind = ReadHeavy | Exchange | RapidGrow

  /** Relative weights of the five operation kinds. */
  datatype Mix = Mix(read: nat, insert: nat, remove: nat, update: nat, upsert: nat)

  datatype Workload = Workload(
    threads: nat,
    mix: Mix,
    initialCapacityLog2: nat,
    prefillFraction: real,
    operations: real)

  function Total(mix: Mix): nat
  {
    mix.read + mix.insert + mix.remove + mix.update + mix.upsert
  }

  /** The command-line spelling of each kind. */
  function Name(kind: WorkloadKind): string
  {
    match kind
    case ReadHeavy => "read-heavy"
    case Exchange => "exchange"
    case RapidGrow => "rapid-grow"
  }

  /** `WorkloadKind::from_str`: exactly the three spellings are accepted;
      anything else is the error "unknown workload". */
  function FromStr(s: string): (r: Result<WorkloadKind, string>)
    ensures r.Ok? ==> Name(r.value) == s
    ensures r.Err? ==> r.error == "unknown workload"
    ensures r.Err? ==> forall kind :: Name(kind) != s
  {
    match s
    case "read-heavy" => Ok(ReadHeavy)
    case "exchange" => Ok(Exchange)
    case "rapid-grow" => Ok(RapidGrow)
    case _ => Err("unknown workload")
  }

  /** Every kind's spelling parses back to that kind. */
  lemma FromStrName(kind: WorkloadKind)
    ensures FromStr(Name(kind)) == Ok(kind)
  {
  }

  // `Workload::new` and its builder setters belong to the external engine
  // crate, which is not part of this model.  The three values below stand
  // for its defaults; every path through `Create` overwrites all three, so
  // no property of this model depends on them.
  const DEFAULT_CAPACITY_LOG2: nat := 25
  const DEFAULT_PREFILL_FRACTION: real := 0.0
  const DEFAULT_OPERATIONS: real := 0.75

  function NewWorkload(threads: nat, mix: Mix): (w: Workload)
    ensures w.threads == threads && w.mix == mix
  {
    Workload(threads, mix, DEFAULT_CAPACITY_LOG2, DEFAULT_PREFILL_FRACTION, DEFAULT_OPERATIONS)
  }

  /** `read_heavy`: 98% reads, 1% inserts, 1% removes, 80% prefilled. */
  function ReadHeavyPreset(threads: nat): (w: Workload)
    ensures w.threads == threads
    ensures w.mix == Mix(98, 1, 1, 0, 0)
    ensures Total(w.mix) == 100 && w.mix.upsert == 0 && w.mix.update == 0
    ensures w.mix.read > w.mix.insert + w.mix.remove + w.mix.update + w.mix.upsert
    ensures w.initialCapacityLog2 == 24
    ensures w.prefillFraction == 0.8
  {
    var mix := Mix(read := 98, insert := 1, remove := 1, update := 0, upsert := 0);
    NewWorkload(threads, mix).(initialCapacityLog2 := 24).(prefillFraction := 0.8)
  }

  /** `rapid_grow`: insert-dominated, starting from an empty map. */
  function RapidGrowPreset(threads: nat): (w: Workload)
    ensures w.threads == threads
    ensures w.mix == Mix(5, 80, 5, 10, 0)
    ensures Total(w.mix) == 100 && w.mix.upsert == 0
    ensures w.mix.insert > w.mix.read + w.mix.remove + w.mix.update
    ensures w.initialCapacityLog2 == 24
    ensures w.prefillFraction == 0.0
  {
    var mix := Mix(read := 5, insert := 80, remove := 5, update := 10, upsert := 0);
    NewWorkload(threads, mix).(initialCapacityLog2 := 24).(prefillFraction := 0.0)
  }

  /** `exchange`: as many removes as inserts, 80% prefilled. */
  function ExchangePreset(threads: nat): (w: Workload)
    ensures w.threads == threads
    ensures w.mix == Mix(10, 40, 40, 10, 0)
    ensures Total(w.mix) == 100 && w.mix.upsert == 0
    ensures w.mix.insert == w.mix.remove
    ensures w.initialCapacityLog2 == 24
    ensures w.prefillFraction == 0.8
  {
    var mix := Mix(read := 10, insert := 40, remove := 40, update := 10, upsert := 0);
    NewWorkload(threads, mix).(initialCapacityLog2 := 24).(prefillFraction := 0.8)
  }

  /** `create`: the preset of the requested kind for `threads` threads, with
      the operations multiplier taken from the command-line options (the
      caller passes the options' `workload` and `operations` fields). */
  function Create(kind: WorkloadKind, operations: real, threads: nat): (w: Workload)
    ensures w.threads == threads
    ensures w.operations == operations
    ensures Total(w.mix) == 100 && w.mix.upsert == 0
    ensures w.initialCapacityLog2 == 24
    ensures 0.0 <= w.prefillFraction <= 1.0
    ensures w.prefillFraction == 0.0 <==> kind == RapidGrow
    ensures kind == ReadHeavy ==> w == ReadHeavyPreset(threads).(operations := operations)
    ensures kind == Exchange ==> w == ExchangePreset(threads).(operations := operations)
    ensures kind == RapidGrow ==> w == RapidGrowPreset(threads).(operations := operations)
  {
    var workload := match kind
      case ReadHeavy => ReadHeavyPreset(threads)
      case Exchange => ExchangePreset(threads)
      case RapidGrow => RapidGrowPreset(threads);
    workload.(operations := operations)
  }

  /** The preset does not depend on the thread count beyond carrying it:
      two thread counts give the same mix, capacity and prefill. */
  lemma CreateOnlyVariesThreads(kind: WorkloadKind, operations: real, a: nat, b: nat)
    ensures Create(kind, operations, a) == Create(kind, operations, b).(threads := a)
  {
  }
}
