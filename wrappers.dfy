/** Option and Result, the two wrappers the rest of the model uses. */
module Wrappers {

  /** A Python value that may be None. */
  datatype Option<T> = None | Some(value: T)

  /** The outcome of a Python call that either returns a value or raises an
      exception; only the exception's message is kept. */
  datatype Result<T> = Success(value: T) | Failure(error: string)
}
