/** Outcomes of the modelled operations that can raise in the original program. */
module Outcomes {
  /** The Python exceptions the modelled code can raise. */
  datatype Error = IndexError | KeyError | ValueError

  /** A value, or the exception that replaced it. */
  datatype Result<T> = Ok(value: T) | Err(error: Error)

  /** A value, or Python's None. */
  datatype Option<T> = Some(value: T) | None
}
