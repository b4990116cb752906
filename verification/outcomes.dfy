/**
 Optional values and the one error the modelled code raises.
 */
module Outcomes {

  /** Python's `None` or a value. */
  datatype Option<T> = None | Some(value: T)

  /** The `ValueError` raised for a password longer than the configured maximum. */
  datatype Error = LengthExceeded(maxLength: int)

  /** A returned value, or the error raised instead. */
  datatype Result<T> = Ok(value: T) | Err(error: Error)
}
