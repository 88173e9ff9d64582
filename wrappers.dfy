/** Failure-compatible result types used throughout the model. */
module Wrappers {

  /** A value that may be missing: a lookup that finds nothing, a digit that does not parse. */
  datatype Option<+T> = None | Some(value: T)

  /** The outcome of a call that returns a value or aborts with an error. */
  datatype Result<+T, +E> = Success(value: T) | Failure(error: E)

  /** The outcome of a call that returns nothing or aborts with an error. */
  datatype Outcome<+E> = Pass | Fail(error: E)
}
