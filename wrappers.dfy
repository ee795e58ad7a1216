/** Failure-compatible wrappers used across the model. */
module Wrappers {

  /** A value that may be absent; stands for PHP's `false` returns. */
  datatype Option<+T> = None | Some(value: T)

  /** A computation that either yields a value or fails with an error. */
  datatype Result<+R, +E> = Success(value: R) | Failure(error: E)
}
