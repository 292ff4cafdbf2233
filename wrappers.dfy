/** Option and Result, used where the program either panics, calls log.Fatal
    or yields a value. */
module Wrappers {

  datatype Option<+T> = None | Some(value: T)

  datatype Result<+T, +E> = Ok(value: T) | Err(error: E)
}
