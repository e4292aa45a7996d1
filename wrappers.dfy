/** Option and Result values used for the source's `null`/`undefined` results and its thrown errors. */
module Wrappers {

  datatype Option<+T> = None | Some(value: T)

  /** A computation that either produced a value or threw an error. */
  datatype Result<+T, +E> = Success(value: T) | Failure(error: E)

  /** A state-changing call that either completed or threw an error. */
  datatype Outcome<+E> = Pass | Fail(error: E)
}
