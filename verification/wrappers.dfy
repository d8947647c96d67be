/** Failure-carrying values shared by every module of the model: an optional
    value (JavaScript `undefined`/`null` versus a value) and the outcome of a
    call that may throw. */
module Wrappers {

  datatype Option<+T> = None | Some(value: T)
  {
    function GetOr(default: T): T
    {
      match this
      case Some(v) => v
      case None => default
    }
  }

  /** The outcome of an awaited call: its value, or the value it threw. */
  datatype Result<+T, +E> = Ok(value: T) | Err(error: E)
}
