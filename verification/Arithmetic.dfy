// Multiplication facts that the solver needs to be told.
module Arithmetic {

  lemma MulMonotone(a: int, b: int, k: int)
    requires a <= b && 0 <= k
    ensures a * k <= b * k && k * a <= k * b
  {
  }
}
