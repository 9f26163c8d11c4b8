/** Option and Result values shared by both models of `Version`. */
module Wrappers {

  /** A value that may be missing: Python's `None` or a value. */
  datatype Option<+T> = None | Some(value: T)

  /** The outcome of an operation that either returns or raises. */
  datatype Result<+T, +E> = Ok(value: T) | Err(error: E)
}
