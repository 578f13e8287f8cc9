/** Option and Result values used for the source's `null` returns and its
    thrown `Error`s (every error in this code base is a message string). */
module Wrappers {

  datatype Option<+T> = None | Some(value: T)

  datatype Result<+T> = Ok(value: T) | Err(message: string)
}
