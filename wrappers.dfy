/** Failure-compatible wrappers used across the model in place of null and exceptions. */
module Wrappers {

  /** A value that may be missing: the model's stand-in for a Java `null`. */
  datatype Option<+T> = None | Some(value: T)

  /** The value of a computation that may fail with an error instead of throwing. */
  datatype Result<+T, +E> = Success(value: T) | Failure(error: E)

  /** The outcome of a step that only changes state: it passes or fails with an error. */
  datatype Outcome<+E> = Pass | Fail(error: E)
}
