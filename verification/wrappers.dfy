/** Option and result types shared by the other modules. */
module Wrappers {

  /** A value that may be absent; stands in for a Java reference that may be null. */
  datatype Option<+T> = None | Some(value: T)

  /** Either a value or the reason why none could be produced. */
  datatype Result<+R, +E> = Success(value: R) | Failure(error: E)
}
