/** Optional values and results, used for the timer's notification handle and
    for the fault a handler can raise. */
module Wrappers {

  /** A value that may be absent; stands for a nullable reference. */
  datatype Option<T> = None | Some(value: T)

  /** The outcome of an operation that can fault. */
  datatype Result<T, E> = Success(value: T) | Failure(error: E)
}
