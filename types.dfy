/** Failure-compatible wrappers shared by every module of the model. */
module Types {

  /** An optional value, as Rust's `Option` and the TypeScript `undefined`/`-1` conventions. */
  datatype Option<+T> = None | Some(value: T)

  /** The outcome of a fallible operation, as Rust's `Result`. */
  datatype Result<+T, +E> = Ok(value: T) | Err(error: E)
}
