/** Failure-compatible wrappers and the fixed-width integer bounds that the
    modelled Rust code relies on (`u32`, `u64`). */
module Common {

  datatype Option<T> = None | Some(value: T)

  /** The `Result<T, E>` of the source: `Ok(value)` or `Err(error)`. */
  datatype Result<T, E> = Ok(value: T) | Err(error: E)

  const U32_LIMIT: nat := 0x1_0000_0000
  const U64_LIMIT: nat := 0x1_0000_0000_0000_0000

  type u32 = x: nat | x < U32_LIMIT
  type u64 = x: nat | x < U64_LIMIT

  /** Rust's `x as u32` on an unsigned integer: keep the low 32 bits. */
  function AsU32(x: nat): (r: u32)
    ensures x < U32_LIMIT ==> r == x
    ensures r <= x
  {
    x % U32_LIMIT
  }

  /** Rust's `x as u64` on an unsigned integer: keep the low 64 bits. */
  function AsU64(x: nat): (r: u64)
    ensures x < U64_LIMIT ==> r == x
    ensures r <= x
  {
    x % U64_LIMIT
  }
}
