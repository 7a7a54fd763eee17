/** Delays that start at two seconds, double per step, and stop at a cap. */
module Doubling {

  function Pow2(n: nat): nat {
    if n == 0 then 1 else 2 * Pow2(n - 1)
  }

  function Min(a: int, b: int): int {
    if a <= b then a else b
  }

  /** The delay of the k-th step in a row, in seconds. */
  function Doubled(k: nat, cap: nat): nat
    requires k > 0
  {
    Min(2 * Pow2(k - 1), cap)
  }

  lemma DoubledStep(k: nat, cap: nat)
    requires k > 0
    ensures Doubled(k + 1, cap) == Min(2 * Doubled(k, cap), cap)
    ensures Doubled(k, cap) <= Doubled(k + 1, cap) <= cap
  {
  }

  lemma {:induction false} DoubledMonotone(j: nat, k: nat, cap: nat)
    requires 0 < j <= k
    ensures Doubled(j, cap) <= Doubled(k, cap)
    decreases k - j
  {
    if j < k {
      DoubledStep(j, cap);
      DoubledMonotone(j + 1, k, cap);
    }
  }
}
