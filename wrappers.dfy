/** Option and Result values used across the model for JavaScript's `null`
    and for Rust's `Result`. */
module Wrappers {

  datatype Option<+T> = None | Some(value: T)

  datatype Result<+T, +E> = Ok(value: T) | Err(error: E)
}
