/** Option, Result and Outcome values shared by the modules of the model. */
module Outcomes {

  /** A value that may be absent (the source's `null`). */
  datatype Option<+T> = None | Some(value: T)

  /** A value, or the error a call threw. */
  datatype Result<+T, +E> = Success(value: T) | Failure(error: E)

  /** Normal completion of a call with no value, or the error it threw. */
  datatype Outcome<+E> = Pass | Fail(error: E)
}
