/** Failure-compatible wrappers used for the source's `None` values and raised errors. */
module Wrappers {

  /** A value that may be absent (Python's `None`). */
  datatype Option<+T> = None | Some(value: T)

  /** A computed value or the error that was raised instead. */
  datatype Result<+T, +E> = Success(value: T) | Failure(error: E)

  /** A check that passes or raises an error. */
  datatype Outcome<+E> = Pass | Fail(error: E)
}
