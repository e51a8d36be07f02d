/** Option, Result and Outcome: the values a Python call returns, or the exception it raises. */
module Wrappers {

  datatype Option<+T> = None | Some(value: T)

  /** A call that returns a value, or raises an error. */
  datatype Result<+R, +E> = Success(value: R) | Failure(error: E)

  /** A call that returns nothing (`None` in Python), or raises an error. */
  datatype Outcome<+E> = Pass | Fail(error: E)
}
