/** Small shared vocabulary: an optional value and integer min/max. */
module Common {

  /** A value that may be absent (JavaScript `null` / `undefined`). */
  datatype Option<+T> = None | Some(value: T)

  function Min(a: int, b: int): (m: int)
    ensures m <= a && m <= b && (m == a || m == b)
  {
    if a <= b then a else b
  }

  function Max(a: int, b: int): (m: int)
    ensures m >= a && m >= b && (m == a || m == b)
  {
    if a >= b then a else b
  }

  /** JavaScript truthiness of an optional string: present and not "". */
  predicate Truthy(s: Option<string>)
  {
    s.Some? && s.value != ""
  }
}
