/** Failure-carrying results shared by the graph layer and the Foxx service model. */
module Wrappers {

  datatype Option<+T> = None | Some(value: T) {
    function GetOr(default: T): T {
      match this
      case Some(v) => v
      case None => default
    }
  }

  /** A value or the error the source would throw instead of returning. */
  datatype Result<+T, +E> = Ok(value: T) | Err(error: E)

  /** The outcome of an operation that returns nothing (a JS `undefined`) or throws. */
  datatype Outcome<+E> = Pass | Fail(error: E)
}
