/** Option and Result values shared by the input modules. */
module Wrappers {

  /** A value that may be absent, as Python's `None`. */
  datatype Option<+T> = None | Some(value: T)

  /** The outcome of an operation that may raise an exception. */
  datatype Result<+T, +E> = Ok(value: T) | Err(error: E)
}
