/** Small value wrappers shared by the monitoring model. */
module Util {

  /** A JavaScript value that may be `null`. */
  datatype Option<+T> = None | Some(value: T) {
    /** The value, or `default` when there is none. */
    function GetOr(default: T): T {
      match this
      case Some(v) => v
      case None => default
    }
  }

  /** The outcome of a request handler: a payload, or an HTTP error. */
  datatype Result<+R, +E> = Ok(value: R) | Err(error: E)

  function Min(a: int, b: int): int { if a <= b then a else b }
  function Max(a: int, b: int): int { if a <= b then b else a }
}
