/** A C pointer that may be NULL is modelled as an Option; an operation
 *  that yields a value or an error as a Result. */
module Wrappers {
  datatype Option<T> = None | Some(value: T)

  datatype Result<T, E> = Success(value: T) | Failure(error: E)
}
