/** Small wrapper types shared by the other modules. */
module Common {
  /** A value that may be missing (JavaScript's `null`). */
  datatype Option<T> = None | Some(value: T)

  /** The outcome of an operation that may throw instead of returning. */
  datatype Result<T, E> = Ok(value: T) | Err(error: E)
}
