/** Optional values and results with an error, for the task service and the console. */
module Wrappers {

  /** An optional value: Python's `X | None`. */
  datatype Option<+T> = None | Some(value: T)

  /** A value or the error an operation raises instead of returning it. */
  datatype Result<+R, +E> = Success(value: R) | Failure(error: E)
}
