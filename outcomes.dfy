/** Option and Result values shared by the model. */
module Outcomes {

  /** A value that may be absent (`undefined` in the dashboard's code). */
  datatype Option<+T> = None | Some(value: T) {
    function GetOr(default: T): T {
      match this
      case Some(v) => v
      case None => default
    }
  }

  /** The outcome of an operation that can fail with an error message. */
  datatype Result<+T, +E> = Ok(value: T) | Err(error: E)
}
