/** Option and Result: the error paths of the modelled Python code
    (a `None` return, a raised exception) become values. */
module Wrappers {

  datatype Option<+T> = None | Some(value: T)

  datatype Result<+T, +E> = Ok(value: T) | Err(error: E)
}
