/** Option and Result, the two failure-carrying datatypes the model uses. */
module Wrappers {

  datatype Option<+T> = None | Some(value: T)

  /** The outcome of a run that may abort: the scripts raise, they never return an error value. */
  datatype Result<+T, +E> = Success(value: T) | Failure(error: E)
}
