/** Option and Result: an absent value (JavaScript's `null`/`undefined`) and
    an operation that either succeeds or reports why it did not. */
module Wrappers {
  datatype Option<+T> = None | Some(value: T)

  datatype Result<+R, +E> = Ok(value: R) | Err(error: E)
}
