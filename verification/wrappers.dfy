/** Optional values and failure-carrying results, used wherever the Go code
    returns `(value, error)` or a nullable column. */
module Wrappers {

  datatype Option<+T> = None | Some(value: T)

  datatype Result<+T, +E> = Ok(value: T) | Err(error: E)
}
