/** The fixed-width integer types of the library, as ranges of `int`. */
module Integers {

  const U64_LIMIT: int := 0x1_0000_0000_0000_0000
  const I64_LIMIT: int := 0x8000_0000_0000_0000

  /** Rust's `u64`. */
  type U64 = n: int | 0 <= n < U64_LIMIT

  /** Rust's `i64`. */
  type I64 = n: int | -I64_LIMIT <= n < I64_LIMIT
}
