/** The two sum types of the Rust prelude that the value layer returns. */
module RustPrelude {

  /** `Option<T>`: an absent or present value. */
  datatype Option<+T> = None | Some(value: T)

  /** `Result<T, E>`: a value or an error payload. */
  datatype Result<+T, +E> = Ok(value: T) | Err(error: E)
}
