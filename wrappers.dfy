/** Optional values and error results, used where the Go code returns `(T, error)`
    or uses the two-valued `v, ok` idiom. */
module Wrappers {

  datatype Option<+T> = None | Some(value: T)

  datatype Result<+T, +E> = Ok(value: T) | Err(error: E)
}
