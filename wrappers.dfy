/** Optional values and results, used for the source's optional fields, `undefined`/`null`
    values and error returns. */
module Wrappers {

  /** `None` stands for a missing, `undefined` or `null` value. */
  datatype Option<+T> = None | Some(value: T)

  datatype Result<+T, +E> = Success(value: T) | Failure(error: E)
}
