/** Failure-compatible helper datatypes shared by every module of the model. */
module Wrappers {

  /** An optional value: the model's stand-in for Python's `None`. */
  datatype Option<+T> = None | Some(value: T) {
    function GetOr(default: T): T {
      match this
      case Some(v) => v
      case None => default
    }
  }

  /** Either a value or the error an operation raised. */
  datatype Result<+R, +E> = Success(value: R) | Failure(error: E)
}
