/** Failure-carrying results used across the model. */
module Wrappers {

  datatype Option<+T> = None | Some(value: T)

  /** A value or the error a call raised instead. */
  datatype Result<+R, +E> = Success(value: R) | Failure(error: E)

  /** Completion of a call whose return value is not modelled. */
  datatype Outcome<+E> = Pass | Fail(error: E)
}
