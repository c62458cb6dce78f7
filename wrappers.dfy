/** Option and Result, the shapes of Rust's `Option<T>` and `Result<T, Box<dyn Error>>`. */
module Wrappers {

  datatype Option<+T> = None | Some(value: T)

  datatype Result<+T, +E> = Ok(value: T) | Err(error: E)
}
