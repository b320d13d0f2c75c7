/** Failure-carrying values shared by every module of the model. */
module Wrappers {

  /** A value that may be absent (a Go zero value or a nil element). */
  datatype Option<+T> = None | Some(value: T)

  /** A Go `(value, error)` pair: exactly one of the two is meaningful. */
  datatype Result<+T, +E> = Success(value: T) | Failure(error: E)
}
