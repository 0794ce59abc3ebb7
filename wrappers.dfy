/** Option and Result values shared by the modules of this model. */
module Wrappers {

  /** A value that may be absent: the model of a nullable reference. */
  datatype Option<+T> = None | Some(value: T)

  /** The outcome of an operation that can raise an exception. */
  datatype Result<+T> = Ok(value: T) | Err(message: string)
}
