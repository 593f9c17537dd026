/** Option and Result values for the decoder's lookups and error returns. */
module Wrappers {

  datatype Option<+T> = None | Some(value: T)

  /** A Go `(value, error)` pair: either the value or the error, never both. */
  datatype Result<+T, +E> = Ok(value: T) | Err(error: E)
}
