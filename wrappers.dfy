/** Option, Result and Outcome: the absent value and the thrown error of the service code. */
module Wrappers {

  /** A value that may be missing: `undefined` for a board cell, no row for a lookup. */
  datatype Option<+T> = None | Some(value: T)

  /** The value an operation returns, or the error it throws. */
  datatype Result<+R, +E> = Success(value: R) | Failure(error: E)

  /** The completion of an operation that returns nothing, or the error it throws. */
  datatype Outcome<+E> = Pass | Fail(error: E)
}
