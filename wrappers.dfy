/** Option and Result, the shapes in which the modelled code reports a missing
    value or an error instead of raising or throwing. */
module Wrappers {

  datatype Option<+T> = None | Some(value: T)

  datatype Result<+T, +E> = Ok(value: T) | Err(error: E)
}
