/** Option and Result, for JavaScript's `undefined`/`null` returns and thrown errors. */
module Wrappers {

  datatype Option<T> = None | Some(value: T)

  /** `Err` carries the message of the error the source throws or reports. */
  datatype Result<T> = Ok(value: T) | Err(message: string)
}
