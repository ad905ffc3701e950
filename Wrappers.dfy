/** Option and Result, the two failure-carrying shapes the Rust code returns. */
module Wrappers {

  datatype Option<+T> = None | Some(value: T)

  /** `Result<T, String>`: every error in the modelled code is reported as text. */
  datatype Result<+T> = Ok(value: T) | Err(error: string)
}
