/** Option, Result and Outcome: the ways the modelled code reports absence and failure. */
module Wrappers {

  /** A value that may be absent (Python's `None`). */
  datatype Option<+T> = None | Some(value: T)

  /** A computation that returned a value or raised with a message. */
  datatype Result<+R, +E> = Success(value: R) | Failure(error: E)

  /** A side effect that either completed or raised with a message. */
  datatype Outcome<+E> = Pass | Fail(error: E)
}
