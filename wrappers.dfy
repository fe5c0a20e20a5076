/** Option and Result datatypes shared by the other modules. */
module Wrappers {

  /** An optional value: an environment variable that may be unset, a search that may find nothing. */
  datatype Option<+T> = None | Some(value: T)

  /** A value or the error that prevented it, as Rust's `Result`. */
  datatype Result<+T, +E> = Ok(value: T) | Err(error: E)
}
