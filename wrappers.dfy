/** Optional values and fallible results, standing in for PHP's null and exceptions. */
module Wrappers {

  /** A value that may be absent: PHP's `null` or a missing array key. */
  datatype Option<+T> = None | Some(value: T)

  /** The outcome of a step that may throw an `Exception` carrying a message. */
  datatype Result<+T> = Success(value: T) | Failure(error: string)
}
