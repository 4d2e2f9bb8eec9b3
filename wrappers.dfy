/** Optional values and results with an error channel, used for the optional
    request parameters and for the error cases of the analytics. */
module Wrappers {

  datatype Option<+T> = None | Some(value: T)

  datatype Result<+R, +E> = Ok(value: R) | Err(error: E)
}
