/** Option and Result, the failure-carrying values used throughout the model. */
module Wrappers {

  /** `None` stands for Python's `None` or for a key that is absent. */
  datatype Option<+T> = None | Some(value: T) {
    function GetOr(default: T): T {
      match this
      case Some(v) => v
      case None => default
    }
  }

  /** The outcome of a run that may abort with an exception. */
  datatype Result<+T, +E> = Success(value: T) | Failure(error: E)
}
