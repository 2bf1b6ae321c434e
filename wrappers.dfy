/** Optional values and results with an error, used for JavaScript `null`/`undefined`,
    Python `None`, and for exceptions that a caller may observe. */
module Wrappers {

  datatype Option<+T> = None | Some(value: T) {
    /** `x || default` / `x.get(k, default)` on an optional value. */
    function GetOr(default: T): T {
      match this
      case Some(v) => v
      case None => default
    }
  }

  datatype Result<+T, +E> = Success(value: T) | Failure(error: E)
}
