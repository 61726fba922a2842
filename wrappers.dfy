/** Small shared value types: optional values and the outcome of a Python operation
    that may raise one of the exceptions the modelled code can run into. */
module Wrappers {
  datatype Option<T> = None | Some(value: T)

  /** The built-in exceptions the loaders can raise on malformed JSON input. */
  datatype PyError = TypeError | KeyError | IndexError

  datatype Result<T> = Ok(value: T) | Err(error: PyError)
}
