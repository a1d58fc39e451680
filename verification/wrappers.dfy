/** Failure-carrying result types shared by every module of the model. */
module Wrappers {

  /** A value that may be absent: SQL NULL, a JSON `null`, or a row that was not found. */
  datatype Option<+T> = None | Some(value: T)

  /** The outcome of one request: `Ok` when the transaction commits, `Err` when it is rolled back. */
  datatype Result<+T, +E> = Ok(value: T) | Err(error: E)
}
