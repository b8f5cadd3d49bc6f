/** Optional values and error-carrying results, for Python's `None` and
    for exceptions that end an operation. */
module Wrappers {
  datatype Option<+T> = None | Some(value: T)

  datatype Result<+T> = Ok(value: T) | Err(error: string)
}
