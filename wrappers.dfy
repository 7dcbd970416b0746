/** Failure-compatible result types shared by the model. */
module Wrappers {

  /** A value that may be absent: the outcome of a search that can find nothing. */
  datatype Option<+T> = None | Some(value: T)

  /** A value or an error, the shape of Go's `(T, error)` pair. */
  datatype Result<+R, +E> = Success(value: R) | Failure(error: E)

  /** Success or failure of a remote call whose only result is its error. */
  datatype Outcome<+E> = Pass | Fail(error: E)
}
