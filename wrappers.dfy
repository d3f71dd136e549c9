/** Option and Result, the shapes of Rust's `Option<T>` and `anyhow::Result<T>`. */
module Wrappers {

  datatype Option<+T> = None | Some(value: T)

  /** An error is carried as the text its `Display` implementation prints. */
  datatype Result<+T> = Ok(value: T) | Err(error: string)
}
