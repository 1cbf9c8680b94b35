/** Optional values (Java's nullable references and `Optional`) and results that
    carry either a value or an error (the exceptions the service throws). */
module Wrappers {

  datatype Option<+T> = None | Some(value: T)

  datatype Result<+T, +E> = Success(value: T) | Failure(error: E)
}
