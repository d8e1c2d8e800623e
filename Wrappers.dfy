/** Failure-compatible wrappers used for the source's null returns and exceptions. */
module Wrappers {

  /** A value that may be absent (the source's `null`). */
  datatype Option<+T> = None | Some(value: T)

  /** A value, or the error that aborted its computation. */
  datatype Result<+T, +E> = Success(value: T) | Failure(error: E)

  /** Success without a value, or the error that aborted the step. */
  datatype Outcome<+E> = Pass | Fail(error: E)
}
