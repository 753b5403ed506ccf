/** Option and Result: the error paths of the system's callbacks and thrown errors. */
module Wrappers {

  datatype Option<+T> = None | Some(value: T)

  /** `Err` carries the message string the callback or the thrown Error carries. */
  datatype Result<+T> = Ok(value: T) | Err(message: string)
}
