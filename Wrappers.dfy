/** Option and Result values, used for Python's `None` defaults and for the
    exceptions that the modelled code raises or swallows. */
module Wrappers {

  datatype Option<+T> = None | Some(value: T)

  /** `Failure` carries the exception's message, as `str(e)` would show it. */
  datatype Result<+R> = Success(value: R) | Failure(error: string)
}
