/** Option and Result values shared by every module: `None` stands for Python's
    None / a missing dict key, `Err` for an exception or an HTTP error response. */
module Wrappers {

  datatype Option<+T> = None | Some(value: T) {
    function GetOr(default: T): T {
      match this
      case Some(v) => v
      case None => default
    }
  }

  datatype Result<+T, +E> = Ok(value: T) | Err(error: E)
}
