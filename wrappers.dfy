/** Option and Result: the model's stand-ins for Python's `None` and for a raised exception. */
module Wrappers {

  datatype Option<T> = None | Some(value: T) {

    /** The stored value, or `default` when there is none (the `x if x is not None else d` idiom). */
    function GetOr(default: T): T {
      match this
      case Some(v) => v
      case None => default
    }
  }

  datatype Result<T, E> = Ok(value: T) | Err(error: E)
}
