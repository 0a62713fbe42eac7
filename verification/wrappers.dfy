/** Failure-compatible wrappers used for the source's `null` returns and thrown errors. */
module Wrappers {

  /** A value that may be absent: the source's `T | null`. */
  datatype Option<+T> = None | Some(value: T) {

    /** Returns the value, or `default` when absent (the source's `??`). */
    function GetOr(default: T): T {
      match this
      case Some(v) => v
      case None => default
    }
  }

  /** The result of an operation that can throw: `Failure` carries the error message. */
  datatype Result<+R> = Success(value: R) | Failure(error: string)
}
