/** Small value wrappers shared by every module of the model. */
module Wrappers {

  /** A value that may be absent: Python's `X | None`. */
  datatype Option<+T> = None | Some(value: T)

  /** The outcome of an operation that may fail with an error of type `E`. */
  datatype Result<+T, +E> = Ok(value: T) | Err(error: E)

  /**
   * A field of a partial-update request: `Unset` when the caller left it out
   * of the request body, `Set(v)` when the caller sent it (possibly with a
   * null `v`). This is the distinction pydantic's `exclude_unset` draws.
   */
  datatype Patch<+T> = Unset | Set(value: T)
}
