/** Optional values and results with an error, used across the model. */
module Wrappers {

  /** Swift's `Optional`: `nil` or a wrapped value. */
  datatype Option<+T> = None | Some(value: T) {

    /** The wrapped value, or `default` for `nil` (Swift's `??`). */
    function GetOr(default: T): (r: T)
      ensures Some? ==> r == value
      ensures None? ==> r == default
    {
      match this
      case Some(v) => v
      case None => default
    }
  }

  /** The outcome of an operation that may hit a fatal path. */
  datatype Result<+R, +E> = Success(value: R) | Failure(error: E)
}
