/** Option and Result, used for values the handler may lack and for its failures. */
module Wrappers {

  datatype Option<+T> = None | Some(value: T) {

    /** JavaScript's `x ?? default`: the value when present, the default otherwise. */
    function GetOr(default: T): T {
      match this
      case Some(v) => v
      case None => default
    }
  }

  datatype Result<+R, +E> = Success(value: R) | Failure(error: E)
}
