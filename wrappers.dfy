/** Optional values and tagged outcomes used by the outlook model. */
module Wrappers {

  datatype Option<+T> = None | Some(value: T)

  /** Either a success payload or a named error, in place of the source's single text field. */
  datatype Result<+R, +E> = Success(value: R) | Failure(error: E)
}
