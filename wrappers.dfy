/** Option and Result, the failure-carrying values the model returns where the
    PHP code returns `false` or throws. */
module Wrappers {

  datatype Option<+T> = None | Some(value: T)

  datatype Result<+T, +E> = Ok(value: T) | Err(error: E)
}
