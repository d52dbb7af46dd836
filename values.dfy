/** JavaScript values as the two source files use them: a property that may be
    null or undefined, and the truthiness of a string. */
module Values {

  /** A value that may be absent (null or undefined in the source). */
  datatype Option<+T> = None | Some(value: T)

  /** `!!x` for a string that may be absent: the empty string is falsy too. */
  predicate Truthy(x: Option<string>)
  {
    x.Some? && x.value != ""
  }

  /** The text JavaScript's `+` produces when a possibly absent string is
      concatenated: `absent` is "null" or "undefined". */
  function TextOf(x: Option<string>, absent: string): string
  {
    if x.Some? then x.value else absent
  }
}
