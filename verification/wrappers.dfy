/** Optional values (a Java reference that may be null) and results that are
    either a value or an error response. */
module Wrappers {
  datatype Option<+T> = None | Some(value: T)

  datatype Result<+T, +E> = Success(value: T) | Failure(error: E)
}
