/** Option and Result, used across the model. */
module Wrappers {

  /** An absent JSON field or request property (`undefined`) is `None`. */
  datatype Option<T> = None | Some(value: T) {
    /** The value, or `default` when absent: JavaScript's `x || default` for a present, truthy `x`. */
    function GetOr(default: T): T {
      match this
      case Some(v) => v
      case None => default
    }
  }

  /** The outcome of a request: a response body or an error. */
  datatype Result<T, E> = Ok(value: T) | Err(error: E)
}
