/** Option and Result values shared by every module of the model. */
module Wrappers {

  /** A value that may be missing (Python's `None`). */
  datatype Option<+T> = None | Some(value: T) {
    function GetOr(default: T): T {
      match this
      case Some(v) => v
      case None => default
    }
  }

  /** The outcome of an operation that can raise: the value it returns, or the exception it raises. */
  datatype Result<+T, +E> = Done(value: T) | Raised(error: E)
}
