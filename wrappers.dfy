/** Optional values and results with an error, used for Python's `None`
    arguments and for the exceptions the core can raise. */
module Wrappers {

  datatype Option<+T> = None | Some(value: T)

  datatype Result<+R, +E> = Success(value: R) | Failure(error: E)
}
