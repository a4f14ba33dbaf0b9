/** Optional values and results with an error, used wherever the program
    either has a value or has caught an exception. */
module Wrappers {

  /** A value that may be absent (PHP's `null` or `false` from a failed call). */
  datatype Option<+T> = None | Some(value: T) {

    /** The value, or `default` when absent. */
    function GetOr(default: T): T {
      match this
      case Some(v) => v
      case None => default
    }
  }

  /** The outcome of a step that may throw: a value or the exception's message. */
  datatype Result<+R, +E> = Success(value: R) | Failure(error: E)
}
