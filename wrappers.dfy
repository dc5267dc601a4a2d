/** Option and Result values shared by the rest of the model. */
module Wrappers {

  /** A value that may be missing: JSON `null`, an absent key, Python `None`, JavaScript `undefined`. */
  datatype Option<+T> = None | Some(value: T) {
    function GetOr(default: T): T {
      match this
      case Some(v) => v
      case None => default
    }
  }

  /** The outcome of an operation that can raise. */
  datatype Result<+R, +E> = Success(value: R) | Failure(error: E)
}
