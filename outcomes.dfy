/** Optional values and the Python exceptions that the modelled code can raise. */
module Outcomes {

  datatype Option<T> = None | Some(value: T)

  /** The exception kinds that reach the caller of a modelled operation. */
  datatype PyError =
    | IndexError(message: string)
    | ValueError(message: string)
    | TypeError(message: string)

  /** The outcome of an operation that either returns a value or raises. */
  datatype Result<T> = Ok(value: T) | Raised(error: PyError)
}
