/** Result types standing in for Rust's `Option` and `Result<_, String>`. */
module Wrappers {

  datatype Option<+T> = None | Some(value: T)

  /** `Result<T, String>`: every error in the program is a human-readable message. */
  datatype Result<+T> = Ok(value: T) | Err(error: string)

  /** `Result<(), String>`, what command handlers return. */
  datatype Outcome = Pass | Fail(error: string)
}
