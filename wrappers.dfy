/** Optional values and results, used where the JavaScript code has `null`,
    `undefined` or a caught exception. */
module Wrappers {

  datatype Option<+T> = None | Some(value: T)

  datatype Result<+R, +E> = Success(value: R) | Failure(error: E)
}
