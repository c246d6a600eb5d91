/** A value that may be absent: Java's null / Optional.empty, JavaScript's null or undefined. */
module Wrappers {
  datatype Option<T> = None | Some(value: T) {
    /** `this.orElse(d)` */
    function GetOr(d: T): T {
      if Some? then value else d
    }
  }

  /** A call that returns a value or throws the named exception with a message. */
  datatype Result<T> = Success(value: T) | Failure(exception: string, message: string)
}
