/** Option and result types shared by the other modules. */
module Wrappers {

  /** A value that may be missing (a NaN cell, a date that does not parse). */
  datatype Option<+T> = None | Some(value: T)

  /** The outcome of an operation that either produces a value or raises an error. */
  datatype Result<+R, +E> = Success(value: R) | Failure(error: E)
}
