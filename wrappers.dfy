/** Option and Result, the two failure-carrying shapes the engine uses everywhere. */
module Wrappers {

  /** A possibly empty slot, as Rust's `Option`. */
  datatype Option<+T> = None | Some(value: T)

  /** Success or failure, as Rust's `Result`. */
  datatype Result<+T, +E> = Ok(value: T) | Err(error: E)
}
