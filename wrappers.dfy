/** Optional values, for request fields that may be absent and for lookups that may find nothing, and the truthiness test the handlers apply to such fields. */
module Wrappers {

  datatype Option<+T> = None | Some(value: T)

  /**
   * JavaScript truthiness of an optional string field or header, as in
   * `if (!token)`: absent and "" are falsy, every other string is truthy.
   */
  predicate Present(field: Option<string>)
  {
    field.Some? && field.value != ""
  }
}
