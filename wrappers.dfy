/** Small failure-carrying datatypes shared by the modules of the model. */
module Wrappers {

  datatype Option<+T> = None | Some(value: T)

  /** A computation that either yields a value or stops with an error (a Java exception). */
  datatype Result<+T, +E> = Success(value: T) | Failure(error: E)

  /** A computation with no value that either completes or stops with an error. */
  datatype Outcome<+E> = Pass | Fail(error: E)
}
