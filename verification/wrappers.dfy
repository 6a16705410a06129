/** Optional values and results with an error message, used for the
    arguments the setup script validates. */
module Wrappers {

  /** A value that may be absent, as Python's `None` or a value. */
  datatype Option<+T> = None | Some(value: T)

  /** The outcome of a validation: the accepted value or the message
      the script reports when it refuses the argument. */
  datatype Result<+T> = Ok(value: T) | Err(message: string)
}
