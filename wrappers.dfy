/** Option and Result, used for JavaScript's `undefined`/`null` results and for the places where the
    original code throws. */
module Wrappers {

  datatype Option<+T> = None | Some(value: T)

  datatype Result<+T, +E> = Ok(value: T) | Err(error: E)
}
