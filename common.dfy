/** Values shared by the modules of the model. */
module Common {

  /** A row a query may or may not find (`fetchone()` returning a row or `None`). */
  datatype Option<+T> = None | Some(value: T)

  /** The smaller of two integers, as Python's `min` and SQL's `LIMIT` cap a count. */
  function Min(a: int, b: int): (r: int)
    ensures r <= a && r <= b && (r == a || r == b)
  {
    if a <= b then a else b
  }
}
