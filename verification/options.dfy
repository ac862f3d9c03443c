/** Optional values and error-carrying results, standing in for Python's
    `None` and for the error responses of the service. */
module Options {

  /** A value that may be absent (Python `None`). */
  datatype Option<+T> = None | Some(value: T) {

    /** The wrapped value, or `default` when absent. */
    function GetOr(default: T): (r: T)
      ensures Some? ==> r == value
      ensures None? ==> r == default
    {
      match this
      case Some(v) => v
      case None => default
    }
  }

  /** Either a computed value or an error. */
  datatype Result<+T, +E> = Ok(value: T) | Err(error: E)
}
