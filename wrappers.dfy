/** Optional values and results with an error message, standing in for Python's None and raised exceptions. */
module Wrappers {

  datatype Option<+T> = None | Some(value: T)

  /** `Err` carries the name of the exception the source would raise. */
  datatype Result<+T> = Ok(value: T) | Err(error: string)
}
