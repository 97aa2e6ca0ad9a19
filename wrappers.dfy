/** Failure-carrying wrappers shared by every module of the model. */
module Wrappers {

  /** A value that may be missing (pandas NA, Python None, an absent key). */
  datatype Option<+T> = None | Some(value: T)

  /** The result of an operation that can raise: `Err` carries what the source would raise. */
  datatype Result<+T, +E> = Ok(value: T) | Err(error: E)
}
