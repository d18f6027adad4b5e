/** Small failure-compatible wrappers shared by every module of the model. */
module Wrappers {

  /** Python's `None` / a present value. */
  datatype Option<T> = None | Some(value: T)

  /** The outcome of an operation that raises in the source: `Err` names the exception. */
  datatype Outcome<T> = Ok(value: T) | Err(error: string)
}
