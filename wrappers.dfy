/** Success/failure results, standing in for Python's raised exceptions. */
module Wrappers {

  datatype Result<+R, +E> = Success(value: R) | Failure(error: E)
}
