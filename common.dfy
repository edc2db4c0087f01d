/** Small value types shared by the modules of the chat backend model. */
module Common {

  /** Rust's `Option<T>`. */
  datatype Option<T> = None | Some(value: T)

  /** Rust's `Result<T, E>`. */
  datatype Result<T, E> = Ok(value: T) | Err(error: E)

  /** Rust's `i32`, the type of user ids. */
  newtype i32 = x: int | -0x8000_0000 <= x < 0x8000_0000
}
