/** Option and Result, shared by the encoder and the advance driver. */
module Wrappers {

  /** An optional value: the result of a lookup or of a decoder that may reject its input. */
  datatype Option<+T> = None | Some(value: T)

  /** The outcome of a fallible operation: a value or an error. */
  datatype Result<+T, +E> = Ok(value: T) | Err(error: E)
}
