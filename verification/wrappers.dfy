/** Failure-carrying values shared by the whole model. */
module Wrappers {

  /** A JavaScript value that may be `undefined`. */
  datatype Option<+T> = None | Some(value: T)

  /** A computation that either yields a value or throws an error whose
      message is the given text. */
  datatype Result<+T> = Ok(value: T) | Err(error: string)
}
