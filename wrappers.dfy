/** Failure-compatible wrappers used across the model: an optional value
    (a Go `nil`-able value or an absent handler) and a result carrying either
    a value or a construction error (a Go `panic`). */
module Wrappers {

  datatype Option<+T> = None | Some(value: T) {
    function GetOr(default: T): T {
      match this
      case Some(v) => v
      case None => default
    }
  }

  datatype Result<+R, +E> = Success(value: R) | Failure(error: E)
}
