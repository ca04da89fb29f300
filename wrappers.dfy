/** Option and Result, the two failure-carrying datatypes the model uses for
    values a request may omit and for handlers that answer with an error. */
module Wrappers {

  datatype Option<+T> = None | Some(value: T)

  datatype Result<+R, +E> = Success(value: R) | Failure(error: E)
}
