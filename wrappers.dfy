/** Failure-compatible wrappers used across the model. */
module Wrappers {

  /** A value that may be missing: the model of a host call that can return None. */
  datatype Option<+T> = None | Some(value: T)

  /** A computation that either succeeds with a value or fails with an error. */
  datatype Result<+R, +E> = Success(value: R) | Failure(error: E)
}
