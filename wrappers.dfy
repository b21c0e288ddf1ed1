/** Java references that may be null are modelled as Option values. */
module Wrappers {

  /** `None` stands for a Java `null`, `Some(v)` for a non-null reference to `v`. */
  datatype Option<+T> = None | Some(value: T) {

    /** Returns the value or, for `None`, the given default. */
    function GetOr(default: T): T {
      match this
      case Some(v) => v
      case None => default
    }
  }

  /** The value an operation produces, or the message of the exception it throws. */
  datatype Result<+T, +E> = Ok(value: T) | Err(error: E)
}
