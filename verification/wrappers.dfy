/** Option and Result, in place of Go's nil values and error returns. */
module Wrappers {

  datatype Option<+T> = None | Some(value: T)

  datatype Result<+T, +E> = Success(value: T) | Failure(error: E) {
    function ToOption(): Option<T> {
      match this
      case Success(value) => Some(value)
      case Failure(_) => None
    }
  }
}
