/** A value that may be absent: a JSON field that `dict.get` did not find, or SQL NULL. */
module Optional {

  datatype Option<+T> = None | Some(value: T)

  /** Python truthiness of an optional string: absent (None) and "" are both falsy. */
  predicate Present(o: Option<string>)
  {
    o.Some? && o.value != ""
  }
}
