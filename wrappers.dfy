/** Option and Result, the two wrappers the engine's values and outcomes are built from. */
module Wrappers {

  datatype Option<+T> = None | Some(value: T)

  /** Either a value or one error kind out of a closed set, never both. */
  datatype Result<+R, +E> = Success(value: R) | Failure(error: E)
}
