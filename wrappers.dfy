/** The S_OK / S_ERROR return convention of the system, and an optional value
    standing for Python's None. */
module Wrappers {

  datatype Option<+T> = None | Some(value: T)

  /** `Ok(v)` is `S_OK(v)`; `Err(e)` is `S_ERROR(e)`. */
  datatype Result<+T, +E> = Ok(value: T) | Err(error: E)
}
