/** Small wrappers shared by the grading and student models: `Option` is a
    Java reference that may be null, `Result` a call that returns a value or
    throws an exception. */
module Wrappers {

  datatype Option<+T> = None | Some(value: T) {
    /** The referenced value, or `default` for null. */
    function GetOr(default: T): T {
      if Some? then value else default
    }
  }

  datatype Result<+T, +E> = Success(value: T) | Failure(error: E)
}
