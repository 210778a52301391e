module Wrappers {
  datatype Option<T> = None | Some(value: T)

  /** What a call that may throw gives back. */
  datatype Result<T> = Ok(value: T) | Thrown
}
