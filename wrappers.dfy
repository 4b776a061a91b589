/** Optional values: the model's stand-in for a null pointer result. */
module Wrappers {

  datatype Option<+T> = None | Some(value: T)

  /** A value or the parse failure that replaced it (the source throws instead). */
  datatype Result<+T, +E> = Ok(value: T) | Err(error: E)
}
