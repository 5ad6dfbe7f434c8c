/** Failure-compatible wrappers shared by the other modules: PHP's nullable
    values become `Option`, and thrown exceptions become `Result.Failure`. */
module Wrappers {

  datatype Option<+T> = None | Some(value: T) {
    function GetOr(default: T): T {
      match this
      case Some(v) => v
      case None => default
    }
  }

  datatype Result<+R, +E> = Success(value: R) | Failure(error: E)
}
