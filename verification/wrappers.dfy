/** Failure-carrying wrappers shared by the whole model: `Option` for Python's
    "value or None" and `Result` for "value or raised exception". */
module Wrappers {

  datatype Option<+T> = None | Some(value: T) {
    function GetOr(default: T): T {
      match this
      case Some(v) => v
      case None => default
    }
  }

  datatype Result<+R, +E> = Success(value: R) | Failure(error: E)
}
