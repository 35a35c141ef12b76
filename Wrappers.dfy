/** Option and Result wrappers used throughout the forum model. */
module Wrappers {

  /** A value that may be absent: JavaScript's `null` / `undefined`. */
  datatype Option<+T> = None | Some(value: T)

  /** The outcome of one HTTP call: the response body, or a rejected promise.
      The client never inspects why a request failed, so `Failed` carries nothing. */
  datatype Result<+T> = Ok(value: T) | Failed

  function GetOr<T>(o: Option<T>, default: T): T {
    match o
    case Some(v) => v
    case None => default
  }
}
