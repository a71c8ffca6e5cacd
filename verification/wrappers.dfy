/** Optional values and command-line failures shared by every module. */
module Wrappers {

  /** Ruby's `nil` or a value. */
  datatype Option<+T> = None | Some(value: T) {
    function GetOr(default: T): T {
      match this
      case Some(v) => v
      case None => default
    }
  }

  /** Outcome of an option-parser step: a value, or a printed error message
      followed by `exit` with the given status. */
  datatype Result<+T> = Ok(value: T) | Failure(message: string, exitStatus: int)

  /** The placeholder value of a validation that only succeeds or fails. */
  datatype Unit = Unit
}
