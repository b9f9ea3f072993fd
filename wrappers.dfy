/** Optional values and results with an error, used for the paths where the
    original code raises an exception. */
module Wrappers {

  datatype Option<+T> = None | Some(value: T)

  datatype Result<+T, +E> = Success(value: T) | Failure(error: E)
}
