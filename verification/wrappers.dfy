/** Optional values and fallible results, used where the Go code returns a
    possibly nil value or an `error`. */
module Wrappers {

  datatype Option<+T> = None | Some(value: T)

  datatype Result<+T, +E> = Ok(value: T) | Err(error: E)
}
