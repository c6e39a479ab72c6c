/** Option and Result, the failure-carrying values used throughout the model. */
module Wrappers {

  datatype Option<+T> = None | Some(value: T)

  /** The value of an operation that either succeeds with `value` or fails with `error`. */
  datatype Result<+T, +E> = Ok(value: T) | Err(error: E)
}
