/** Minimum, maximum and products of integers. */
module Arithmetic {
  function Min(a: int, b: int): int {
    if a <= b then a else b
  }

  function Max(a: int, b: int): int {
    if a >= b then a else b
  }

  lemma MulAdd(a: int, b: int, x: int)
    ensures (a + b) * x == a * x + b * x
  {
  }
}
