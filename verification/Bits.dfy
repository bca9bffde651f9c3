/** Powers of two and shifts of numbers that are not negative. */
module Bits {
  function Pow2(n: nat): (p: nat)
    ensures p > 0
  {
    if n == 0 then 1 else 2 * Pow2(n - 1)
  }

  /** x << k */
  function Shl(x: nat, k: nat): (r: nat)
    ensures x == 0 ==> r == 0
  {
    if k == 0 then x else 2 * Shl(x, k - 1)
  }

  /** x >> k */
  function Shr(x: nat, k: nat): nat
    decreases k
  {
    if k == 0 then x else Shr(x / 2, k - 1)
  }

  lemma {:induction false} ShlDouble(x: nat, k: nat)
    ensures Shl(2 * x, k) == 2 * Shl(x, k)
  {
    if k > 0 { ShlDouble(x, k - 1); }
  }

  lemma {:induction false} ShlAdd(x: nat, y: nat, k: nat)
    ensures Shl(x, k) + Shl(y, k) == Shl(x + y, k)
  {
    if k > 0 { ShlAdd(x, y, k - 1); }
  }

  lemma {:induction false} ShrHalf(x: nat, k: nat)
    ensures Shr(x, k + 1) == Shr(x, k) / 2
    decreases k
  {
    if k > 0 { ShrHalf(x / 2, k - 1); }
  }
}
