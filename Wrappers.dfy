/** Option and outcome types shared by every module of the model. */
module Wrappers {

  /** Rust's `Option<T>`. */
  datatype Option<+T> = None | Some(value: T)

  /** Rust's `Result<T, E>`. */
  datatype Result<+T, +E> = Ok(value: T) | Err(error: E)

  /** How a Rust call ends: it returns a value, or it panics (an `unwrap` on
      `None`/`Err`, an out-of-bounds index) and the process aborts. */
  datatype Outcome<+T> = Normal(value: T) | Panicked
}
