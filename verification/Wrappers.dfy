/** Optional values and error returns, for SQL NULLs, Go's nil pointers and Go's error results. */
module Wrappers {
  datatype Option<+T> = None | Some(value: T)

  datatype Result<+T> = Ok(value: T) | Err
}
