/** Option and Result, the two failure-carrying types the model uses. */
module Wrappers {

  /** A value that may be missing (a JavaScript `undefined`). */
  datatype Option<+T> = None | Some(value: T) {
    /** JavaScript's `x ?? d`. */
    function GetOr(default: T): T {
      match this
      case Some(v) => v
      case None => default
    }
  }

  /** Either a value or the reason the run aborts. */
  datatype Result<+T, +E> = Ok(value: T) | Err(error: E)
}
