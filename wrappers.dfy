/** Option and Result values used where the source returns `Option<_>` or `Result<_, String>`. */
module Wrappers {
  datatype Option<T> = None | Some(value: T)

  datatype Result<T, E> = Ok(value: T) | Err(error: E)
}
