/** Optional values and results with an error message, shared by the other modules. */
module Wrappers {

  datatype Option<+T> = None | Some(value: T)

  /** A settled computation: a value, or the text of the exception that ended it. */
  datatype Result<+T> = Ok(value: T) | Err(error: string)
}
