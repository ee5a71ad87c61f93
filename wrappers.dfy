/**
 * The optional value used throughout the model for nullable columns and missing
 * inputs, and the JavaScript truthiness tests the code applies to them.
 */
module Wrappers {

  datatype Option<+T> = None | Some(value: T)

  /** JavaScript truthiness of an optional string: present and not empty. */
  predicate Truthy(s: Option<string>) {
    s.Some? && s.value != ""
  }

  /** `s || ''`: the string itself when truthy, otherwise the empty string. */
  function OrEmpty(s: Option<string>): string
  {
    if Truthy(s) then s.value else ""
  }
}
