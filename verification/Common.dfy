/** Small datatypes, and a fact of arithmetic, shared by the other modules. */
module Common {

  datatype Option<+T> = None | Some(value: T)

  /** The outcome of a Go function that returns a value and an error. */
  datatype Result<+T> = Ok(value: T) | Err

  lemma MulMonotone(a: int, b: int, d: int)
    requires d > 0
    ensures a <= b ==> a * d <= b * d
  {
    if a <= b {
      assert b * d - a * d == (b - a) * d;
    }
  }
}
