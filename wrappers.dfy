/** Option and Result, the two failure-carrying datatypes the model threads
    through its operations instead of JavaScript's null and thrown errors. */
module Wrappers {

  datatype Option<+T> = None | Some(value: T)

  datatype Result<+R, +E> = Success(value: R) | Failure(error: E)
}
