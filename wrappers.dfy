/** Option and Result values shared by the whole model. */
module Wrappers {

  datatype Option<T> = None | Some(value: T)

  /** The error path of an operation that raises in the source. */
  datatype Result<T> = Ok(value: T) | Err(reason: string)
}
