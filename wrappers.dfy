/** Option and Result values for the undefined, NaN and failed outcomes the page has to handle. */
module Wrappers {

  /** `None` stands for JavaScript's `undefined` (a read that has not arrived) or `NaN`. */
  datatype Option<+T> = None | Some(value: T)

  /** The outcome of a ledger read: its value, or the message of the error it threw. */
  datatype Result<+T> = Ok(value: T) | Err(message: string)
}
