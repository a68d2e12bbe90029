/** Optional values and fallible results shared by the pipeline's modules. */
module Wrappers {

  /** A value that may be missing (Python's `None`, JavaScript's `null`). */
  datatype Option<+T> = None | Some(value: T)

  /** The outcome of an operation that may raise: the value, or the exception's message. */
  datatype Result<+T> = Success(value: T) | Failure(error: string)

  /** `x or ""` for an optional string. */
  function OrEmpty(o: Option<string>): string {
    if o.Some? then o.value else ""
  }
}
