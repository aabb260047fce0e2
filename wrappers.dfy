/** Success/failure values standing in for JavaScript exceptions. */
module Wrappers {

  /** A call that either returns a value or throws an error. */
  datatype Result<+T, +E> = Success(value: T) | Failure(error: E)

  /** A call that returns nothing useful, or throws an error. */
  datatype Outcome<+E> = Pass | Fail(error: E)
}
