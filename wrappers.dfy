/** Option and Result, used for the JavaScript values that may be null or
    undefined and for the error paths of the login form. */
module Wrappers {

  datatype Option<+T> = None | Some(value: T)

  datatype Result<+T, +E> = Ok(value: T) | Err(error: E)
}
