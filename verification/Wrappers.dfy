/** Outcomes shared by every component of the model. */
module Wrappers {

  /** A value that may be absent. */
  datatype Option<+T> = None | Some(value: T)

  /** A value, or the error that prevented it. */
  datatype Result<+T, +E> = Ok(value: T) | Err(error: E)
}
