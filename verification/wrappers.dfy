/** Optional values and results, used wherever the service returns nil or an error. */
module Wrappers {

  datatype Option<+T> = None | Some(value: T)

  datatype Result<+T, +E> = Success(value: T) | Failure(error: E)

  /** The sentinel errors of internal/biz/errors.go; every other failure is Unavailable. */
  datatype Error = InvalidArgument | NotFound | AlreadyExists | Conflict | Unavailable
}
