/** Optional values and results that carry an error, as the Go code's (value, error) pairs. */
module Wrappers {

  /** A value that may be absent: a nil pointer or an unset optional field. */
  datatype Option<+T> = None | Some(value: T)

  /** Either a value or the error that replaced it. */
  datatype Result<+T, +E> = Success(value: T) | Failure(error: E)
}
