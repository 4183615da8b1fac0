/** Failure-compatible result types used across the model. */
module Wrappers {

  datatype Option<+T> = None | Some(value: T)

  /** The outcome of a call into storage that returns a value (the loader). */
  datatype Result<+T, +E> = Success(value: T) | Failure(error: E)

  /** The outcome of a call into storage that returns nothing (the persister). */
  datatype Outcome<+E> = Pass | Fail(error: E)
}
