/** Option and Result values used across the model in place of `None` and raised exceptions. */
module Wrappers {

  datatype Option<T> = None | Some(value: T)

  /** The outcome of a call that may raise: its value, or the exception's text. */
  datatype Result<T> = Ok(value: T) | Err(msg: string)

  /** The record an OCR entry point returns: `{"success": True, "text": ...}` or `{"success": False, "message": ...}`. */
  datatype Outcome = Success(text: string) | Failure(message: string)
}
