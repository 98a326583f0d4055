/** Failure-carrying values used across the model. */
module Wrappers {

  /** A value that may be absent: JavaScript `null`, a Go nil pointer, a missing map key. */
  datatype Option<+T> = None | Some(value: T)

  /** Either a value or the error the Go code would return instead. */
  datatype Result<+R, +E> = Success(value: R) | Failure(error: E)
}
