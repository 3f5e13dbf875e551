/** Optional values and results, used where the Go code returns `nil` or panics. */
module Wrappers {

  /** `None` stands for Go's `nil` record. */
  datatype Option<+T> = None | Some(value: T)

  /** `Err` stands for a runtime panic of the Go code; `Ok` for a normal return. */
  datatype Result<+T, +E> = Ok(value: T) | Err(error: E)
}
