/** Failure-carrying results used for the exceptions the source raises. */
module Wrappers {

  datatype Option<+T> = None | Some(value: T)

  datatype Result<+T, +E> = Success(value: T) | Failure(error: E)

  /** The outcome of an operation that only changes state: it either completes or raises. */
  datatype Outcome<+E> = Pass | Fail(error: E)
}
