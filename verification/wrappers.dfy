/** Stand-ins for Java's null and for the exceptions the modelled code throws. */
module Wrappers {
  /** A reference that may be null. */
  datatype Option<T> = None | Some(value: T)

  /** A call that either returns a value or throws; `message` names the exception. */
  datatype Result<T> = Ok(value: T) | Err(message: string)
}
