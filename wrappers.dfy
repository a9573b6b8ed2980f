/** Optional values and success-or-error results, shared by the client and the server models. */
module Wrappers {

  /** A value that may be absent (Kotlin's nullable types, Python's `None`). */
  datatype Option<+T> = None | Some(value: T)
  {
    /** The value, or `default` when absent (Kotlin's `?:`). */
    function GetOr(default: T): T
    {
      match this
      case Some(v) => v
      case None => default
    }
  }

  /** Either a computed value or the reason it could not be computed. */
  datatype Result<+T, +E> = Success(value: T) | Failure(error: E)
}
