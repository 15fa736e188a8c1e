/** Optional values and results with an error, as the backend's `Optional[...]`
    returns and raised HTTP errors, and the frontend's `null`/`undefined`. */
module Wrappers {

  datatype Option<+T> = None | Some(value: T)

  datatype Result<+R, +E> = Success(value: R) | Failure(error: E)
}
