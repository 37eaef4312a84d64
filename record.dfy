/** The machine-readable output record, one per (case name, thread count),
    and the nanosecond encoding of its two durations.  A `Duration` is held
    as Rust holds it, whole seconds plus sub-second nanoseconds; in the CSV
    row it becomes an unsigned 64-bit count of nanoseconds. */
module Records {
  import opened Common

  const NANOS_PER_SEC: nat := 1_000_000_000

  type SubsecNanos = x: nat | x < NANOS_PER_SEC

  /** `std::time::Duration`. */
  datatype Duration = Duration(secs: u64, subsecNanos: SubsecNanos)

  /** `as_nanos()`: the exact (128-bit) nanosecond count. */
  function AsNanos(d: Duration): (n: nat)
    ensures n / NANOS_PER_SEC == d.secs && n % NANOS_PER_SEC == d.subsecNanos
  {
    d.secs * NANOS_PER_SEC + d.subsecNanos
  }

  /** `Duration::from_nanos`: the duration of exactly `n` nanoseconds. */
  function FromNanos(n: u64): (d: Duration)
    ensures AsNanos(d) == n
  {
    Duration(n / NANOS_PER_SEC, n % NANOS_PER_SEC)
  }

  /** `timestamp::serialize`: `as_nanos() as u64`, which keeps the low 64 bits. */
  function EncodeNanos(d: Duration): (x: u64)
    ensures AsNanos(d) < U64_LIMIT ==> x == AsNanos(d)
    ensures (AsNanos(d) - x) % U64_LIMIT == 0
  {
    AsU64(AsNanos(d))
  }

  /** `timestamp::deserialize`: read a u64 and take it as nanoseconds. */
  function DecodeNanos(x: u64): (d: Duration)
    ensures AsNanos(d) == x
  {
    FromNanos(x)
  }

  /** A duration is determined by its nanosecond count. */
  lemma AsNanosInjective(a: Duration, b: Duration)
    requires AsNanos(a) == AsNanos(b)
    ensures a == b
  {
  }

  /** Every u64 read back from a row is written out again unchanged. */
  lemma EncodeDecode(x: u64)
    ensures EncodeNanos(DecodeNanos(x)) == x
  {
  }

  /** A duration survives the round trip exactly when it is shorter than
      2^64 nanoseconds (about 584 years); a longer one is truncated. */
  lemma DecodeEncode(d: Duration)
    ensures DecodeNanos(EncodeNanos(d)) == d <==> AsNanos(d) < U64_LIMIT
  {
    if AsNanos(d) < U64_LIMIT {
      AsNanosInjective(DecodeNanos(EncodeNanos(d)), d);
    }
  }

  /** `Record`: the fields in the order of the CSV columns. */
  datatype Record = Record(
    name: string,
    totalOps: u64,
    threads: u32,
    spent: Duration,
    throughput: real,
    latency: Duration)

  /** One CSV row as written: the durations as nanosecond counts. */
  datatype Row = Row(
    name: string,
    totalOps: u64,
    threads: u32,
    spentNanos: u64,
    throughput: real,
    latencyNanos: u64)

  /** Serialising a record: only `spent` and `latency` go through the
      nanosecond encoding; every other field is written as it is. */
  function Serialize(r: Record): (row: Row)
    ensures row.name == r.name && row.totalOps == r.totalOps && row.threads == r.threads
    ensures row.throughput == r.throughput
    ensures AsNanos(r.spent) < U64_LIMIT ==> row.spentNanos == AsNanos(r.spent)
    ensures AsNanos(r.latency) < U64_LIMIT ==> row.latencyNanos == AsNanos(r.latency)
    ensures (AsNanos(r.spent) - row.spentNanos) % U64_LIMIT == 0
    ensures (AsNanos(r.latency) - row.latencyNanos) % U64_LIMIT == 0
  {
    Row(r.name, r.totalOps, r.threads, EncodeNanos(r.spent), r.throughput, EncodeNanos(r.latency))
  }

  function Deserialize(row: Row): (r: Record)
    ensures r.name == row.name && r.totalOps == row.totalOps && r.threads == row.threads
    ensures r.throughput == row.throughput
    ensures AsNanos(r.spent) == row.spentNanos && AsNanos(r.latency) == row.latencyNanos
  {
    Record(row.name, row.totalOps, row.threads, DecodeNanos(row.spentNanos), row.throughput, DecodeNanos(row.latencyNanos))
  }

  /** Reading a row and writing it back reproduces it exactly. */
  lemma SerializeDeserialize(row: Row)
    ensures Serialize(Deserialize(row)) == row
  {
    EncodeDecode(row.spentNanos);
    EncodeDecode(row.latencyNanos);
  }

  /** Writing a record and reading it back reproduces it exactly when both
      durations are shorter than 2^64 nanoseconds, and only then. */
  lemma DeserializeSerialize(r: Record)
    ensures Deserialize(Serialize(r)) == r <==>
      AsNanos(r.spent) < U64_LIMIT && AsNanos(r.latency) < U64_LIMIT
  {
    DecodeEncode(r.spent);
    DecodeEncode(r.latency);
  }
}
