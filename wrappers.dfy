/** Option and Result values used throughout the weather pipeline model. */
module Wrappers {

  /** A value that may be absent. */
  datatype Option<+T> = None | Some(value: T)

  /** The outcome of a computation that may fail with an error. */
  datatype Result<+R, +E> = Success(value: R) | Failure(error: E)
}
