/** Optional values and success-or-error results, used across the model for
    Go's `(*T, error)` pairs, nullable pointers and TypeScript's `T | null`. */
module Wrappers {

  datatype Option<+T> = None | Some(value: T) {
    function GetOr(default: T): T {
      match this
      case Some(v) => v
      case None => default
    }
  }

  datatype Result<+R, +E> = Success(value: R) | Failure(error: E)
}
