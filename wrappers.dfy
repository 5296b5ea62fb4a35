/** Option and Result values for error paths the source reports by returning
    None/null or by raising. */
module Wrappers {

  datatype Option<+T> = None | Some(value: T)

  datatype Result<+T, +E> = Ok(value: T) | Err(error: E)
}
