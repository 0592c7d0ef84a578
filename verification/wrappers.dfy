/** Optional values and success-or-error results, standing in for `null`/`undefined`
    and for thrown JavaScript `Error`s. */
module Wrappers {

  /** A value that may be absent (`null` or `undefined` in the source). */
  datatype Option<+T> = None | Some(value: T)

  /** Either a value or an error; a `Failure` carries the thrown error's `message`. */
  datatype Result<+T, +E> = Success(value: T) | Failure(error: E)
}
