/** Optional values and results with an error, as the rest of the model uses them. */
module Wrappers {

  /** A value that may be absent: Python's `None` or a found object. */
  datatype Option<+T> = None | Some(value: T)

  /** The outcome of an operation that may fail with an error value. */
  datatype Result<+R, +E> = Success(value: R) | Failure(error: E)
}
