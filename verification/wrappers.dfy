/** Failure-compatible wrappers shared by the model: Swift optionals become
    `Option`, and a `throws` function becomes one returning `Outcome` (no
    value) or `Result` (a value). */
module Wrappers {

  datatype Option<+T> = None | Some(value: T) {

    /** The wrapped value, or `default` when there is none (Swift's `??`). */
    function GetOr(default: T): T {
      match this
      case Some(v) => v
      case None => default
    }
  }

  /** The outcome of a Swift function that `throws` and returns nothing. */
  datatype Outcome<+E> = Pass | Fail(error: E)

  /** The outcome of a Swift function that `throws` and returns a value. */
  datatype Result<+R, +E> = Success(value: R) | Failure(error: E)
}
