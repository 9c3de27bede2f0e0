/** Failure-carrying values used in place of Java's null and exceptions. */
module Wrappers {

  /** A value that may be absent (a Java reference that may be null). */
  datatype Option<+T> = None | Some(value: T) {
    function GetOr(default: T): T {
      match this
      case Some(v) => v
      case None => default
    }
  }

  /** The outcome of an operation that either returns a value or throws an
      exception; the error carries the exception's message. */
  datatype Result<+T> = Ok(value: T) | Err(error: string)
}
