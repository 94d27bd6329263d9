/** Optional values and results, standing in for Python's `None` and for
    exceptions raised on the request path. */
module Wrappers {

  /** `None` plays the role of Python's `None`. */
  datatype Option<+T> = None | Some(value: T) {

    /** The wrapped value, or `default` when there is none. */
    function GetOr(default: T): T {
      match this
      case Some(v) => v
      case None => default
    }
  }

  /** The outcome of a request: a value, or the error the handler raised. */
  datatype Result<+R, +E> = Success(value: R) | Failure(error: E)
}
