/** What several components share. */
module Base {

  datatype Option<T> = None | Some(value: T)

  /** Conversion of a float to an integer: the fraction is dropped. */
  function Truncate(x: real): int {
    if x >= 0.0 then x.Floor else -((-x).Floor)
  }

  lemma TruncateSpec(x: real)
    ensures x >= 0.0 ==> Truncate(x) == x.Floor >= 0
    ensures x < 0.0 ==> Truncate(x) <= 0
    ensures x >= 1.0 <==> Truncate(x) >= 1
    ensures x <= -1.0 <==> Truncate(x) <= -1
  {}
}
