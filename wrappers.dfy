/** Option and Result, the two Rust sum types the core returns. */
module Wrappers {

  datatype Option<+T> = None | Some(value: T)

  /** `o.unwrap_or(d)` */
  function UnwrapOr<T>(o: Option<T>, d: T): T {
    match o
    case Some(v) => v
    case None => d
  }

  /** `Result<T, String>`: every error of the core is a message. */
  datatype Result<+T> = Ok(value: T) | Err(msg: string)

  /** Rust's `u64`. */
  const U64_LIMIT: nat := 0x1_0000_0000_0000_0000

  type U64 = n: nat | n < U64_LIMIT
}
