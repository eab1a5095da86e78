/** The outcome of an operation that can fail. Error texts are not modelled, only which check failed. */
module Outcome {
  datatype Result<+T, +E> = Ok(value: T) | Err(error: E)

  datatype Option<+T> = None | Some(value: T)
}
