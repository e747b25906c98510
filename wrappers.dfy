/** Optional values: the model's reading of JavaScript's null / undefined. */
module Wrappers {

  datatype Option<+T> = None | Some(value: T)

  /** A string that JavaScript treats as truthy: present and not empty. */
  predicate Truthy(s: Option<string>) {
    s.Some? && s.value != ""
  }

  /** The `s || fallback` idiom on an optional string. */
  function OrElse(s: Option<string>, fallback: string): (r: string)
    ensures Truthy(s) ==> r == s.value
    ensures !Truthy(s) ==> r == fallback
  {
    if s.Some? && s.value != "" then s.value else fallback
  }
}
