/** Optional values and error-carrying results, for the places where the
    calendar code returns nothing, leaves a value undefined or throws. */
module Options {

  datatype Option<+T> = None | Some(value: T) {

    /** The value, or the given default when there is none (a JavaScript
        default parameter). */
    function GetOr(default: T): T {
      match this
      case Some(v) => v
      case None => default
    }
  }

  datatype Result<+R, +E> = Success(value: R) | Failure(error: E)
}
