/** Optional values and results, standing in for Go's nil pointers and `(value, error)` pairs. */
module Wrappers {

  datatype Option<T> = None | Some(value: T)

  datatype Result<T, E> = Success(value: T) | Failure(error: E)

  /** Go's `byte`. */
  type byte = x: int | 0 <= x < 256
}
