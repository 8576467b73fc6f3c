/** Failure-carrying values shared by the whole model.
    The application raises JavaScript `Error`s whose only observable part is
    their message, so a failure carries a string. */
module Outcomes {

  /** A value that may be absent (`null` / `undefined` in the application). */
  datatype Option<+T> = None | Some(value: T) {

    /** The held value, or `default` when absent. */
    function GetOr(default: T): T {
      match this
      case Some(v) => v
      case None => default
    }
  }

  /** The outcome of an operation that either returns a value or throws. */
  datatype Result<+T> = Ok(value: T) | Err(message: string)
}
