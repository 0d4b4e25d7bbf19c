/** Optional and fallible values shared by the client and server models. */
module Wrappers {

  /** A JSON / Python value that may be null. */
  datatype Option<+T> = None | Some(value: T) {
    /** The value, or `default` when absent (a parameter's default value). */
    function GetOr(default: T): T
    {
      if Some? then value else default
    }
  }

  /** A computation that either produced a value or failed with an error. */
  datatype Result<+R, +E> = Success(value: R) | Failure(error: E)

  /** Truthiness of an optional string, the same in JavaScript and Python:
      null and the empty string are falsy, every other string is truthy. */
  predicate Truthy(o: Option<string>)
  {
    o.Some? && o.value != ""
  }
}
