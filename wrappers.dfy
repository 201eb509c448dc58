/** Optional values and results shared by the model's modules. */
module Wrappers {

  /** A value that may be absent: JavaScript's `null` or `undefined`. */
  datatype Option<+T> = None | Some(value: T)

  /** The outcome of a remote call: the response it resolves with, or the message of the error it rejects with. */
  datatype Result<+T> = Ok(value: T) | Err(message: string)
}
