/** Option and Result, used for the source's nullable values and its caught exceptions. */
module Wrappers {

  /** A value that may be absent: C#'s `null` / `default` is `None`. */
  datatype Option<+T> = None | Some(value: T) {

    /** The value, or `default` when there is none (C#'s `??`). */
    function GetOr(default: T): T {
      match this
      case Some(v) => v
      case None => default
    }
  }

  /** The outcome of an operation that may throw: `Failure` carries what was thrown. */
  datatype Result<+R, +E> = Success(value: R) | Failure(error: E)
}
