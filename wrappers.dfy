/** Optional values and results with an error path. */
module Wrappers {

  /** A value that may be left `undefined`. */
  datatype Option<+T> = None | Some(value: T) {

    /** The value, or `default` when undefined (a destructuring default). */
    function GetOr(default: T): T {
      match this
      case Some(v) => v
      case None => default
    }
  }

  /** The outcome of an operation that may throw. */
  datatype Result<+T, +E> = Success(value: T) | Failure(error: E)
}
