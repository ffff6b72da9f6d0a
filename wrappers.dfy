/** Failure-carrying result types used for the factory's exceptions. */
module Wrappers {

  datatype Option<+T> = None | Some(value: T)

  /** A value, or the error that aborted the computation. */
  datatype Result<+R, +E> = Success(value: R) | Failure(error: E)

  /** Success without a value, or the error that aborted the computation. */
  datatype Outcome<+E> = Pass | Fail(error: E)
}
