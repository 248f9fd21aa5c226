/** Optional values and results with an error, as the backend's handlers use them. */
module Wrappers {

  /** A value that may be absent: Python's `None` or a value. */
  datatype Option<+T> = None | Some(value: T) {

    /** The wrapped value, or `default` when absent. */
    function GetOr(default: T): T {
      match this
      case Some(v) => v
      case None => default
    }
  }

  /** The outcome of a request handler: a reply, or an HTTP error it raises. */
  datatype Result<+T, +E> = Ok(value: T) | Err(error: E)
}
