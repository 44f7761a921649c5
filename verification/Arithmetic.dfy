// Products of unknowns, where the solver needs a hand.
module Arithmetic {

  lemma {:induction false} Scale(k: nat, x: nat, y: nat)
    ensures x <= y ==> k * x <= k * y
  {
  }

  lemma Distribute(k: int, x: int, y: int)
    ensures k * (x + y) == k * x + k * y
    ensures (k + x) * y == k * y + x * y
  {
  }
}
