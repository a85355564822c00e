/** Optional values and success/failure results, used wherever the site's code
    works with `undefined`, `null` or a value that may be missing. */
module Wrappers {

  /** A value that may be absent (`undefined` / `null` in the site's code). */
  datatype Option<+T> = None | Some(value: T) {

    /** The carried value, or `default` when absent. */
    function GetOr(default: T): T {
      match this
      case Some(v) => v
      case None => default
    }
  }

  /** The outcome of an operation that can fail. */
  datatype Result<+R, +E> = Success(value: R) | Failure(error: E)
}
