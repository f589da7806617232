/** Option and Result values standing in for Python's `None` and for raised exceptions. */
module Results {

  datatype Option<+T> = None | Some(value: T) {
    /** Python's `x or default` for an optional value. */
    function GetOr(default: T): T {
      match this
      case Some(v) => v
      case None => default
    }
  }

  /** The outcome of a step that either returns a value or raises. */
  datatype Result<+T, +E> = Ok(value: T) | Err(error: E)
}
