/** Optional values and results, standing in for Python's `None` and raised exceptions. */
module Wrappers {

  /** `None` models Python's `None` (or a conversion that raised and was caught). */
  datatype Option<+T> = None | Some(value: T) {

    /** The wrapped value, or `default` when there is none. */
    function GetOr(default: T): T {
      match this
      case Some(v) => v
      case None => default
    }
  }

  /** A value, or the message of the exception that would have been raised. */
  datatype Result<+T, +E> = Success(value: T) | Failure(error: E)
}
