/** Values that stand for Python's None and for raised exceptions. */
module Wrappers {
  datatype Option<+T> = None | Some(value: T)

  datatype Result<+T, +E> = Success(value: T) | Failure(error: E)

  /** A check that either passes or fails with an error, as a guard that may raise. */
  datatype Outcome<+E> = Pass | Fail(error: E)
}
