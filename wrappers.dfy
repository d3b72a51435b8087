/** Option and Result, used for JavaScript's `null`/`undefined` results and for
    operations that throw or return `{ success: false, message }`. */
module Wrappers {

  datatype Option<T> = None | Some(value: T)

  /** `Err` carries the message the JavaScript code throws or returns. */
  datatype Result<T> = Ok(value: T) | Err(msg: string)
}
