/** Option and result types shared by the rest of the model. */
module Wrappers {

  /** A value that may be missing: JavaScript's `undefined` where the source destructures one. */
  datatype Option<+T> = None | Some(value: T)

  /** The outcome of a computation that may throw: `Err` carries what was thrown. */
  datatype Result<+T, +E> = Ok(value: T) | Err(error: E)
}
