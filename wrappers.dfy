/** Option and Result values used for the error paths of every handler. */
module Wrappers {

  datatype Option<+T> = None | Some(value: T)

  /** An HTTP error answer: the status code and the `error` text of the JSON body. */
  datatype HttpError = HttpError(status: int, message: string)

  datatype Result<+T> = Ok(value: T) | Err(error: HttpError)

  /** JavaScript truthiness of an optional string: `undefined` and `''` are falsy. */
  predicate Present(s: Option<string>)
  {
    s.Some? && s.value != ""
  }
}
