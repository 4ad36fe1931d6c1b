/** Option and Result, the two failure-carrying shapes the model uses for
    JavaScript's `undefined`/`null`/`NaN` and for rejected promises. */
module Wrappers {

  datatype Option<+T> = None | Some(value: T) {
    function GetOr(default: T): T {
      match this
      case Some(v) => v
      case None => default
    }
  }

  datatype Result<+T, +E> = Ok(value: T) | Err(error: E)
}
