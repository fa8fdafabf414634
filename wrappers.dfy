/** Optional values and the outcome of an operation that may raise. */
module Wrappers {

  /** Python's `None` or a present value. */
  datatype Option<+T> = None | Some(value: T)

  /** A value, or the message of the exception the pipeline would raise. */
  datatype Result<+T> = Ok(value: T) | Err(msg: string)
}
