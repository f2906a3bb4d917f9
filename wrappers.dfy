/** Option and failure-compatible result types used across the model. */
module Wrappers {

  datatype Option<+T> = None | Some(value: T)

  /** The outcome of a step that either succeeds with a value or halts the session. */
  datatype Result<+R, +E> = Success(value: R) | Failure(error: E)

  /** The outcome of a step that produces no value. */
  datatype Outcome<+E> = Pass | Fail(error: E)
}
