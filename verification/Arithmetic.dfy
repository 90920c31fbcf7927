/** Facts about products that the solver does not find alone. */
module Arithmetic {
  lemma Times(a: int, b: int, c: nat)
    ensures a <= b ==> a * c <= b * c
  {
  }
}
