/** Option and Result, used for the scanner's "marker not found" outcome. */
module Wrappers {

  datatype Option<T> = None | Some(value: T)

  datatype Result<T, E> = Ok(value: T) | Fail(error: E)
}
