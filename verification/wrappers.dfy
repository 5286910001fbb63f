/** Optional and failure-carrying values, plus the one piece of JavaScript
    truthiness the bridge relies on: an optional string is "truthy" when it
    is present and not empty. */
module Wrappers {

  /** A value that may be absent (`undefined` in the program). */
  datatype Option<+T> = None | Some(value: T)

  /** The outcome of a check that can fail with an error value. */
  datatype Result<+R, +E> = Success(value: R) | Failure(error: E)

  /** JavaScript truthiness of a string field that may be missing:
      both `undefined` and `""` are falsy. */
  predicate Truthy(s: Option<string>) {
    s.Some? && s.value != ""
  }
}
