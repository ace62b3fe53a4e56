/** Option and Result, the two failure-carrying shapes the modelled code returns. */
module Wrappers {

  /** Rust's `Option<T>`. */
  datatype Option<+T> = None | Some(value: T)

  /** Rust's `Result<T, &'static str>`. */
  datatype Result<+T> = Ok(value: T) | Err(error: string)
}
