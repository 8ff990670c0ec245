/** Swift's `Optional` and the outcome of a throwing call, as values. */
module Wrappers {

  /** A Swift optional: `nil` is `None`. */
  datatype Option<+T> = None | Some(value: T) {

    /** Swift's `??`: the wrapped value, or `default` when there is none. */
    function GetOr(default: T): T {
      match this
      case Some(v) => v
      case None => default
    }
  }

  /** The outcome of a Swift function marked `throws`: a value, or the error it threw. */
  datatype Result<+R, +E> = Success(value: R) | Failure(error: E)
}
