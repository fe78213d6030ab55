/** Java's Optional and the throw-or-return of a constructor, as values. */
module Wrappers {

  /** Optional<T>: empty, or a present value. */
  datatype Option<+T> = None | Some(value: T)

  /** Either a successful value or the message of the exception that would have been thrown. */
  datatype Result<+R, +E> = Success(value: R) | Failure(error: E)
}
