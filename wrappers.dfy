/** Option and Result values shared by the other modules. */
module Wrappers {

  /** A value that may be absent, as Python's `None` for an unset field. */
  datatype Option<+T> = None | Some(value: T)

  /** The outcome of an operation that may raise instead of returning. */
  datatype Result<+T, +E> = Ok(value: T) | Err(error: E)
}
