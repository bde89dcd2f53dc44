/** Option and Result, the two wrapper types the lexers return. */
module Wrappers {

  datatype Option<+T> = None | Some(value: T)

  /** `Ok(value)` or `Err(error)`, after Rust's `Result`. */
  datatype Result<+T, +E> = Ok(value: T) | Err(error: E)
}
