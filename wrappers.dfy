/** Failure-carrying values used where the Python code returns nothing or raises. */
module Wrappers {

  /** A value that may be absent. */
  datatype Option<+T> = None | Some(value: T)

  /** Either a value or the error the Python code would have raised instead. */
  datatype Result<+R, +E> = Success(value: R) | Failure(error: E)
}
