/**
 Bit operations on machine words, represented as naturals and defined by halving.
 */
module Bits {

  predicate Test(m: nat, p: nat) {
    if p == 0 then m % 2 == 1 else Test(m / 2, p - 1)
  }

  /** m | 1 << p */
  function Set(m: nat, p: nat): nat {
    if p == 0 then m / 2 * 2 + 1 else 2 * Set(m / 2, p - 1) + m % 2
  }

  /** m &^ (1 << p) */
  function Clear(m: nat, p: nat): nat {
    if p == 0 then m / 2 * 2 else 2 * Clear(m / 2, p - 1) + m % 2
  }

  /** The number of bits needed to write m, bits.Len64. */
  function Len(m: nat): nat {
    if m == 0 then 0 else 1 + Len(m / 2)
  }

  lemma {:induction false} TestSet(m: nat, p: nat, q: nat)
    ensures Test(Set(m, p), q) <==> p == q || Test(m, q)
  {
    if p > 0 && q > 0 { TestSet(m / 2, p - 1, q - 1); }
  }

  lemma {:induction false} TestClear(m: nat, p: nat, q: nat)
    ensures Test(Clear(m, p), q) <==> p != q && Test(m, q)
  {
    if p > 0 && q > 0 { TestClear(m / 2, p - 1, q - 1); }
  }

  lemma {:induction false} TestBelowLen(m: nat, p: nat)
    requires Test(m, p)
    ensures p < Len(m)
  {
    if p > 0 { TestBelowLen(m / 2, p - 1); }
  }

  lemma {:induction false} TestZero(p: nat)
    ensures !Test(0, p)
  {
    if p > 0 { TestZero(p - 1); }
  }

  /** The leading bit is set. */
  lemma {:induction false} TestTop(m: nat)
    requires m > 0
    ensures Test(m, Len(m) - 1)
  {
    if m > 1 { TestTop(m / 2); }
  }
}
