/** Optional values and error-carrying results shared by the booking engine. */
module Basics {

  datatype Option<T> = None | Some(value: T)

  /** The outcome of an operation: a value, or the failure the web layer reports. */
  datatype Result<T, E> = Ok(value: T) | Err(error: E)
}
