/** Optional values and results with an error, used where the Kotlin code uses
    nullable types or throws. */
module Wrappers {

  datatype Option<T> = None | Some(value: T) {
    /** Kotlin's `?:` with a default on the right. */
    function GetOr(default: T): T {
      match this
      case Some(v) => v
      case None => default
    }
  }

  datatype Result<T, E> = Ok(value: T) | Err(error: E)
}
