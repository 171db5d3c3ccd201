/** Optional values and error-carrying results, used wherever the dashboard
    code either finds nothing or reports an error to the user. */
module Wrappers {

  datatype Option<+T> = None | Some(value: T)

  datatype Result<+T, +E> = Ok(value: T) | Err(error: E)
}
