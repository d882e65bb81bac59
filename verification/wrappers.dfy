/** Option and Result types shared by the model. */
module Wrappers {

  /** A value that may be absent (Python's Optional / None). */
  datatype Option<T> = None | Some(value: T)

  /** The outcome of a call to an external collaborator: a payload or an error text. */
  datatype Result<T> = Success(value: T) | Failure(error: string)
}
