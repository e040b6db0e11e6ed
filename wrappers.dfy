/** Failure-compatible wrappers used throughout the model. */
module Wrappers {

  /** A value that may be absent; `None` also stands for Go's nil. */
  datatype Option<+T> = None | Some(value: T)

  /** A value or the error that prevented it, as Go's `(T, error)` pair. */
  datatype Result<+T, +E> = Success(value: T) | Failure(error: E)

  /** Go's lone `error` return: `Pass` is nil. */
  datatype Outcome<+E> = Pass | Fail(error: E)
}
