/** Option and Result: Java's nullable references and thrown exceptions, as values. */
module Wrappers {
  datatype Option<T> = None | Some(value: T)

  datatype Result<T, E> = Ok(value: T) | Err(error: E)
}
