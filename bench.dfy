/** The driving loop of one benchmark case: the hasher option, the skip
    list, the default thread-count sweep derived from the CPU count, and the
    loop that measures each thread count and hands the result to the
    output handler.  The measurement itself is produced by the external
    engine and appears here as the caller-supplied function `run`. */
module Bench {
  import opened Common
  import Workloads

  datatype HasherKind = Std | AHash

  const HASHER_ERROR: string := "invalid hasher, must be one of 'std' or 'ahash'"

  /** The command-line spelling of each hasher. */
  function HasherName(kind: HasherKind): string
  {
    match kind
    case Std => "std"
    case AHash => "ahash"
  }

  /** `parse_hasher_kind`: exactly "std" and "ahash" are accepted. */
  function ParseHasherKind(s: string): (r: Result<HasherKind, string>)
    ensures r.Ok? ==> HasherName(r.value) == s
    ensures r.Err? ==> r.error == HASHER_ERROR
    ensures r.Err? ==> forall kind :: HasherName(kind) != s
  {
    match s
    case "std" => Ok(Std)
    case "ahash" => Ok(AHash)
    case _ => Err(HASHER_ERROR)
  }

  lemma ParseHasherName(kind: HasherKind)
    ensures ParseHasherKind(HasherName(kind)) == Ok(kind)
  {
  }

  /** The command-line options that one case reads. */
  datatype Options = Options(
    workload: Workloads.WorkloadKind,
    operations: real,
    threads: Option<seq<u32>>,
    hasher: HasherKind,
    gcSleepMs: u64,
    skip: Option<seq<string>>,
    csv: bool,
    csvNoHeaders: bool)

  /** `iter().find(|s| s == &name)`: the first element equal to `name`. */
  function Find(list: seq<string>, name: string): (r: Option<string>)
    ensures r.Some? <==> name in list
    ensures r.Some? ==> r.value == name
  {
    if list == [] then None
    else if list[0] == name then Some(list[0])
    else Find(list[1..], name)
  }

  /** The skip test at the head of `case`. */
  function IsSkipped(options: Options, name: string): (skipped: bool)
    ensures skipped <==> options.skip.Some? && name in options.skip.value
  {
    options.skip.Some? && Find(options.skip.value, name).Some?
  }

  /** The values of `(lo..=hi).step_by(step)`, in order. */
  function StepBy(lo: nat, hi: nat, step: nat): (r: seq<nat>)
    requires step > 0
    ensures lo > hi ==> r == []
    ensures lo <= hi ==> |r| > 0 && (|r| - 1) * step <= hi - lo < |r| * step
    ensures forall i :: 0 <= i < |r| ==> r[i] == lo + i * step
    decreases if lo <= hi then hi + 1 - lo else 0
  {
    if lo > hi then [] else [lo] + StepBy(lo + step, hi, step)
  }

  /** `gen_threads`: the default sweep for `n` CPUs.  The match is on `n`,
      the ranges run to `n as u32`. */
  function GenThreads(n: nat): (r: seq<u32>)
    ensures r == [] <==> n == 0
    ensures forall i :: 0 <= i < |r| ==> 1 <= r[i] <= n
  {
    var top := AsU32(n);
    var counts :=
      if n <= 10 then StepBy(1, top, 1)
      else if n <= 16 then [1] + StepBy(0, top, 2)[1..]
      else [1] + StepBy(0, top, 4)[1..];
    seq(|counts|, i requires 0 <= i < |counts| => counts[i] as u32)
  }

  /** Up to ten CPUs: every count from 1 to n (nothing at all for n = 0). */
  lemma GenThreadsSmall(n: nat)
    requires n <= 10
    ensures GenThreads(n) == seq(n, i => i + 1)
  {
  }

  /** Eleven to sixteen CPUs: 1, then every even count from 2 to n. */
  lemma GenThreadsMedium(n: nat)
    requires 11 <= n <= 16
    ensures GenThreads(n) == [1] + seq(n / 2, i => 2 * (i + 1))
  {
  }

  /** Seventeen CPUs or more: 1, then every multiple of 4 from 4 up to
      `n as u32` (which is n itself below 2^32). */
  lemma GenThreadsLarge(n: nat)
    requires 17 <= n
    ensures GenThreads(n) == [1] + seq(AsU32(n) / 4, i => 4 * (i + 1))
  {
  }

  /** Every generated sweep is strictly increasing. */
  lemma GenThreadsIncreasing(n: nat)
    ensures forall i, j :: 0 <= i < j < |GenThreads(n)| ==> GenThreads(n)[i] < GenThreads(n)[j]
  {
  }

  /** `threads.unwrap_or_else(gen_threads)`: a user-supplied list is used
      verbatim; without one, the sweep for the CPU count. */
  function ThreadList(options: Options, cpus: nat): (r: seq<u32>)
    ensures options.threads.Some? ==> r == options.threads.value
    ensures options.threads.None? ==> r == GenThreads(cpus)
  {
    match options.threads
    case Some(list) => list
    case None => GenThreads(cpus)
  }

  /** One call of the output handler: case name, thread count, measurement. */
  datatype Call<M> = Call(name: string, threads: u32, measurement: M)

  /** `case`: a skipped name produces no call at all; otherwise each thread
      count of the list, in order, is measured once with the workload
      `create` builds for it, and the handler is called once with it.  A
      measurement is timed, so `run` also receives the position of the run:
      two runs with the same thread count need not measure the same.  The
      pause between measurements is left out. */
  method Case<M>(name: string, options: Options, cpus: nat, run: (nat, Workloads.Workload) -> M)
    returns (calls: seq<Call<M>>)
    ensures IsSkipped(options, name) ==> calls == []
    ensures !IsSkipped(options, name) ==> |calls| == |ThreadList(options, cpus)|
    ensures !IsSkipped(options, name) ==>
      forall i :: 0 <= i < |calls| ==>
        var n := ThreadList(options, cpus)[i];
        calls[i] == Call(name, n, run(i, Workloads.Create(options.workload, options.operations, n)))
  {
    calls := [];
    if options.skip.Some? {
      var found := Find(options.skip.value, name);
      if found.Some? {
        return;
      }
    }
    var threads := ThreadList(options, cpus);
    var k := 0;
    while k < |threads|
      invariant 0 <= k <= |threads|
      invariant |calls| == k
      invariant forall i :: 0 <= i < k ==>
        calls[i] == Call(name, threads[i], run(i, Workloads.Create(options.workload, options.operations, threads[i])))
    {
      var n := threads[k];
      var m := run(k, Workloads.Create(options.workload, options.operations, n));
      calls := calls + [Call(name, n, m)];
      k := k + 1;
    }
  }
}
