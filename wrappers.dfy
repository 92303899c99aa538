/** Success/failure values standing in for Python's `raise ValueError(...)`. */
module Wrappers {

  /** A computed value, or the error that was raised instead. */
  datatype Result<+T, +E> = Ok(value: T) | Err(error: E)

  /** A check that either passes or raises an error. */
  datatype Outcome<+E> = Pass | Fail(error: E)
}
