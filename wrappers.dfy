/** Failure-carrying values shared by every stage of the interpreter. */
module Wrappers {

  datatype Option<T> = None | Some(value: T)

  /** An executor either yields its output lines or stops with one error message. */
  datatype Result<T> = Ok(value: T) | Err(message: string)
}
