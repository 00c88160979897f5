/** Failure-carrying values used throughout the model: a nullable value and an error outcome. */
module Wrappers {

  /** A value or nothing; also used for nullable pointers and null function handles. */
  datatype Option<+T> = None | Some(value: T)

  /** The result of a step that either succeeds or reports the condition that failed. */
  datatype Outcome<+E> = Pass | Fail(error: E)

  /** A computed value or the condition that made the computation fail. */
  datatype Result<+R, +E> = Success(value: R) | Failure(error: E)
}
