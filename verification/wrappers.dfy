/** Failure-carrying return types shared by the other modules. */
module Wrappers {

  /** A value that may be absent, like Rust's `Option`. */
  datatype Option<+T> = None | Some(value: T)

  /** A computation that either succeeds with a value or fails with an error, like Rust's `Result`. */
  datatype Result<+T, +E> = Success(value: T) | Failure(error: E)
}
