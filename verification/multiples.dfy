/**
 * Multiples of a block size, built by repeated addition so that loops which
 * step through equal blocks can reason linearly about block offsets.
 */
module Multiples {

  /** unit * i, built up by repeated addition: the offset of block i of `unit` elements. */
  function Stride(unit: nat, i: nat): nat
  {
    if i == 0 then 0 else Stride(unit, i - 1) + unit
  }

  lemma {:induction false} StrideIsProduct(unit: nat, i: nat)
    ensures Stride(unit, i) == unit * i
  {
    if i > 0 {
      StrideIsProduct(unit, i - 1);
      assert unit * i == unit * (i - 1) + unit;
    }
  }

  /** Block i of n ends within the first n blocks. */
  lemma {:induction false} StrideFits(unit: nat, i: nat, n: nat)
    requires i < n
    ensures Stride(unit, i) + unit <= Stride(unit, n)
    decreases n
  {
    if i < n - 1 {
      StrideFits(unit, i, n - 1);
    }
  }
}
