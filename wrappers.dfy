/** Failure-carrying result types shared by the model. */
module Wrappers {

  /** A value that may be absent; stands in for a nullable reference or value. */
  datatype Option<+T> = None | Some(value: T)

  /** The outcome of an operation that may throw: a value or the error raised. */
  datatype Result<+T, +E> = Success(value: T) | Failure(error: E)
}
