/** Failure-carrying wrappers shared by every binding of the model. */
module Wrappers {

  /** A value that may be absent: Rust's `Option`, Go's nil pointer, Python's missing key. */
  datatype Option<+T> = None | Some(value: T)

  /** A success value or an error value: Rust's `Result`, a Python call that may raise. */
  datatype Result<+T, +E> = Ok(value: T) | Err(error: E)
}
