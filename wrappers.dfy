/** Option and Result, the two failure-carrying datatypes the model uses. */
module Wrappers {

  /** A value that may be absent: a missing body field, a session without a user, a row not found. */
  datatype Option<+T> = None | Some(value: T)

  /** The outcome of a check: the validated value, or the error the handler answers with. */
  datatype Result<+T, +E> = Ok(value: T) | Err(error: E)
}
