/** Typed outcomes that stand in for Python's `None` returns and raised exceptions. */
module Outcomes {

  /** A value that may be absent; `None` models Python's `None`. */
  datatype Option<+T> = None | Some(value: T)

  /** The two exceptions the core raises: `IndexError` for an id outside the
      registry, `ValueError` for a rejected capacity or a full flight. */
  datatype Error = IndexError | ValueError

  /** Either a value or the exception that replaced it. */
  datatype Result<+T> = Ok(value: T) | Err(error: Error)
}
