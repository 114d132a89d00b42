/** Optional values and fallible results, as the engine's `Option` and `Result`. */
module Wrappers {
  datatype Option<T> = None | Some(value: T)

  datatype Result<T, E> = Ok(value: T) | Err(error: E)
  {
    predicate IsOk() { this.Ok? }
  }

  /**
   * The outcome of an operation that may stop the program with a panic
   * (Rust's `assert!`), as opposed to returning an error value.
   */
  datatype Checked<T> = Returns(value: T) | Panics(message: string)
}
