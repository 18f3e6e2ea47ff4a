/** Option and Result, the two failure-carrying shapes the modelled code uses, and string truthiness. */
module Wrappers {

  /** A value that may be absent: Rust's `Option`, or a TypeScript `T | null`. */
  datatype Option<+T> = None | Some(value: T)

  /** A computation that either produced a value or failed with an error. */
  datatype Result<+T, +E> = Ok(value: T) | Err(error: E)

  /** JavaScript truthiness of a `string | null` (or `undefined`): present and not the empty string. */
  predicate Truthy(v: Option<string>)
  {
    v.Some? && v.value != ""
  }
}
