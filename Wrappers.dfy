/** Failure-carrying values shared by the board and the game. */
module Wrappers {

  /** The one exception the core raises: `ValueError` for a position it cannot map. */
  datatype Error = InvalidPosition(position: int)

  /** A value, or the exception raised instead of returning it. */
  datatype Result<T> = Ok(value: T) | Err(error: Error)

  /** Python's `None` or a value. */
  datatype Option<T> = None | Some(value: T)
}
