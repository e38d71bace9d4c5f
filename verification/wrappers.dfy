/** Option and Result values used wherever the modelled code returns `null`, throws,
    or answers with an HTTP error status. */
module Wrappers {

  /** A value that may be absent (`null` / `undefined` in the modelled code). */
  datatype Option<+T> = None | Some(value: T) {

    /** The carried value, or `default` when absent. */
    function GetOr(default: T): T {
      match this
      case Some(v) => v
      case None => default
    }
  }

  /** The outcome of an operation that either produces a value or fails with an error. */
  datatype Result<+T, +E> = Ok(value: T) | Err(error: E) {

    /** The carried value, or `default` on failure: the shape of a `catch` that substitutes
        a fallback instead of rethrowing. */
    function GetOr(default: T): T {
      match this
      case Ok(v) => v
      case Err(_) => default
    }
  }
}
