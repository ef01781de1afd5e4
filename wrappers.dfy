/** Optional values and results used by every module. */
module Wrappers {

  /** Python's optional value: `None` or a present value. */
  datatype Option<+T> = None | Some(value: T)

  /** The outcome of an operation that the source ends with an exception or an error exit. */
  datatype Result<+T, +E> = Ok(value: T) | Err(error: E)
}
