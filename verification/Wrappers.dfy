/** Failure-carrying results shared by the other modules. */
module Wrappers {

  /** A value that may be missing: a dictionary miss, a failed lookup. */
  datatype Option<+T> = None | Some(value: T)

  /** A call that may fail; the text of the error is not modelled. */
  datatype Result<+T> = Ok(value: T) | Err
}
