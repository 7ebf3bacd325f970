/** Option and Result values that stand for the source's null returns and exceptions. */
module Wrappers {

  datatype Option<+T> = None | Some(value: T)

  /** The outcome of an operation that either yields a value or fails the way the source throws. */
  datatype Result<+T, +E> = Ok(value: T) | Err(error: E)
}
