/** Swift's `T?` becomes Option; an outcome that is a value or a fault becomes
    Result. */
module Wrappers {

  datatype Option<+T> = None | Some(value: T)

  datatype Result<+R, +E> = Success(value: R) | Failure(error: E)
}
