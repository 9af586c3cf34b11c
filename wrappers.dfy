/** Optional values and outcomes shared by every module of the model. */
module Wrappers {
  datatype Option<T> = None | Some(value: T)

  /** The value of a call that either returns or throws an Error with a message. */
  datatype Result<T> = Success(value: T) | Failure(error: string)
}
