/** Values that may be absent, and values or errors. */
module Wrappers {

  datatype Option<+T> = None | Some(value: T)

  datatype Result<+T, +E> = Success(v: T) | Failure(e: E)
}
