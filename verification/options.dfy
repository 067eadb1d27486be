/** Optional values and results: the model's stand-in for C# null references
    and for exceptions thrown to the caller. */
module Options {

  /** A reference that may be null. */
  datatype Option<+T> = None | Some(value: T) {

    /** The value, or a default when there is none. */
    function GetOr(default: T): T {
      match this
      case Some(v) => v
      case None => default
    }
  }

  /** The outcome of an operation that may throw. */
  datatype Result<+R, +E> = Success(value: R) | Failure(error: E)
}
