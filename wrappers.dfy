/** Option and Result values: the Go code's (value, error) pairs become a Result whose
    error is the text that `err.Error()` would produce. */
module Wrappers {

  datatype Option<+T> = None | Some(value: T)

  datatype Result<+T> = Ok(value: T) | Err(error: string)
}
