/** Option and Result, the two failure-carrying datatypes the model uses for
    Python's `None` values and raised exceptions. */
module Wrappers {

  datatype Option<T> = None | Some(value: T) {
    /** `x if x is not None else default` */
    function GetOr(default: T): T {
      match this
      case Some(v) => v
      case None => default
    }
  }

  datatype Result<T, E> = Success(value: T) | Failure(error: E)
}
