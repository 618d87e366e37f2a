/** Option and Result, the two shapes the model uses for Python's None and
    for exceptions raised by an operation. */
module Wrappers {

  datatype Option<+T> = None | Some(value: T)

  datatype Result<+R, +E> = Success(value: R) | Failure(error: E)
}
