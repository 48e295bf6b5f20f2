/** Shared result types. */
module Common {
  datatype Option<T> = None | Some(value: T)

  function Min(x: int, y: int): int { if x <= y then x else y }

  lemma QuotientTimes(x: real, y: real)
    requires y > 0.0
    ensures x / y * y == x
  {
  }
}
