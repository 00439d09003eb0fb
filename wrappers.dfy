/**
 * Optional values (a JavaScript property that may be `undefined` or `null`) and
 * results (a value, or the error a `throw` would carry).
 */
module Wrappers {

  datatype Option<+T> = None | Some(value: T)

  datatype Result<+R, +E> = Success(value: R) | Failure(error: E)

}
