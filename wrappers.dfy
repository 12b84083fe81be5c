/** Optional values and success-or-failure results shared by the modules of the model. */
module Wrappers {

  /** A value that may be absent (`null` / `undefined` in the application). */
  datatype Option<+T> = None | Some(value: T)

  /** The outcome of a step that either produces a value or fails with a reason. */
  datatype Result<+R, +E> = Success(value: R) | Failure(error: E)
}
