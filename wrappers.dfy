/** Option and Result: the model's stand-ins for C# `null` and for the
    exceptions and error returns of the services. */
module Wrappers {

  /** A nullable value: `None` is C# `null`. */
  datatype Option<+T> = None | Some(value: T) {
    function GetOr(default: T): T {
      match this
      case Some(v) => v
      case None => default
    }
  }

  /** The outcome of a service call that either returns a value or throws
      (or returns an error message); `Err` carries the message. */
  datatype Result<+T> = Ok(value: T) | Err(message: string)
}
