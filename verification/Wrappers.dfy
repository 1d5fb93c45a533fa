/** Shared value types. */
module Wrappers {
  datatype Option<+T> = None | Some(value: T)

  /** What a Python call that may raise gives back. */
  datatype Result<+T, +E> = Ok(value: T) | Err(error: E)

  newtype byte = x: int | 0 <= x < 256
}
