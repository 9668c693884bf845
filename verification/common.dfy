/** The optional-value type and the `Math.max` the scheduler modules share. */
module Common {

  /** A value that may be absent: a missing JSON field, a SQL NULL, an empty query result. */
  datatype Option<+T> = None | Some(value: T)

  function Max(a: int, b: int): (r: int)
    ensures r >= a && r >= b
    ensures r == a || r == b
  {
    if a >= b then a else b
  }
}
