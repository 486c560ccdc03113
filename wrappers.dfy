/** Option and Result, standing for Python's None and for a raised exception. */
module Wrappers {

  datatype Option<T> = None | Some(value: T) {
    function GetOr(default: T): T {
      match this
      case Some(v) => v
      case None => default
    }
  }

  /** `Err` carries the exception the Python code would raise, as its message. */
  datatype Result<T> = Ok(value: T) | Err(error: string)
}
