/** Option and Result values shared by every module: a Python exception raised
    by the modelled code becomes an `Err` carrying a description of it. */
module Wrappers {
  datatype Option<T> = None | Some(value: T)

  datatype Result<T, E> = Ok(value: T) | Err(error: E)
}
