/** Option and Result, the two ways an operation of the bot reports absence or failure. */
module Wrappers {

  /** A value that may be absent: Python's `None` or a missing row. */
  datatype Option<+T> = None | Some(value: T)

  /** The outcome of a statement that may raise: a value, or the error it raised. */
  datatype Result<+T, +E> = Ok(value: T) | Err(error: E)
}
