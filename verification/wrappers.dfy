/** Failure-carrying values used throughout the model: Rust's `Option` and
    `Result`, and an `Outcome` for operations that return `Result<(), E>`. */
module Wrappers {

  datatype Option<+T> = None | Some(value: T)

  datatype Result<+T, +E> = Ok(value: T) | Err(error: E)

  datatype Outcome<+E> = Pass | Fail(error: E)
}
