/** Failure-carrying wrappers used throughout the model. */
module Wrappers {

  /** An optional value: JavaScript's `undefined` is `None`. */
  datatype Option<+T> = None | Some(value: T)

  /** The outcome of a step that can fail with a reason. */
  datatype Result<+T> = Success(value: T) | Failure(error: string)
}
