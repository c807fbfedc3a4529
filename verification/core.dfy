/**
 The standard-library types the unwrap component works on: Rust's `Option<T>`,
 `Result<T, E>` and the `u32` that carries line and column numbers.
 */
module Core {

  /** Rust's `u32`: line and column numbers as `line!()` and `column!()` produce them. */
  newtype u32 = x: int | 0 <= x < 0x1_0000_0000

  /** Rust's `Option<T>`: a value that may be absent. */
  datatype Option<T> = None | Some(value: T)

  /** Rust's `Result<T, E>`: a success value or an error value. */
  datatype Result<T, E> = Ok(value: T) | Err(error: E)
}
