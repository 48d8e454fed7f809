/** Option and Result, the two failure-carrying shapes the model uses. */
module Wrappers {

  datatype Option<+T> = None | Some(value: T)

  /** Either a value or one of the typed errors the source throws. */
  datatype Result<+T, +E> = Ok(value: T) | Err(error: E)
}
