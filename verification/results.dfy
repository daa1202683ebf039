/** Rust's `Option` and `Result`, as used by the library's fallible operations. */
module Results {

  /** An optional value: `Some(v)` or nothing. */
  datatype Option<+T> = None | Some(value: T)

  /** A value or an error. A Rust panic is modelled as an `Err` carrying the reason. */
  datatype Result<+T, +E> = Ok(value: T) | Err(error: E)
}
