/** Optional values and results with an error, as the client's nullable fields and thrown errors. */
module Wrappers {

  /** A value that may be absent: JavaScript `null` / `undefined` is `None`. */
  datatype Option<+T> = None | Some(value: T) {

    /** `x ?? default`, and `x || default` where the value is never falsy otherwise. */
    function GetOr(default: T): T {
      match this
      case Some(v) => v
      case None => default
    }
  }

  /** The outcome of an operation that may throw. */
  datatype Result<+R, +E> = Success(value: R) | Failure(error: E)
}
