/** The two result shapes the modelled code uses: Rust's `Option` and `Result<_, String>`. */
module Wrappers {
  datatype Option<+T> = None | Some(value: T)

  datatype Result<+T> = Ok(value: T) | Err(error: string)
}
