/** Option and Result, the two shapes the model uses for Python's None and for
    operations that raise. */
module Wrappers {

  datatype Option<T> = None | Some(value: T)

  /** `Err` carries the name of the Python exception the source raises. */
  datatype Result<T> = Ok(value: T) | Err(error: string)
}
