/** Optional values, for Python's `None` and for lookups that may miss, and results that may fail. */
module Wrappers {

  datatype Option<+T> = None | Some(value: T) {

    /** The wrapped value, or `default` when there is none (Python's `x or default`). */
    function GetOr(default: T): T {
      match this
      case Some(v) => v
      case None => default
    }
  }

  /** A value, or the error that Python would raise instead. */
  datatype Result<+T, +E> = Success(value: T) | Failure(error: E)
}
