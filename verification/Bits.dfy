/** Single bits of 32-bit words. */
module Bits {

  function And(a: bv32, b: bv32): bv32 {
    a & b
  }

  function Or(a: bv32, b: bv32): bv32 {
    a | b
  }

  function Not(a: bv32): bv32 {
    !a
  }

  function Mask(k: nat): bv32
    requires k < 32
  {
    (1 as bv32) << k
  }

  predicate Test(w: bv32, k: nat)
    requires k < 32
  {
    And(w, Mask(k)) != 0
  }

  function With(w: bv32, k: nat): bv32
    requires k < 32
  {
    Or(w, Mask(k))
  }

  function Without(w: bv32, k: nat): bv32
    requires k < 32
  {
    And(w, Not(Mask(k)))
  }

  lemma OrOther(w: bv32, m: bv32, n: bv32)
    requires And(m, n) == 0
    ensures And(Or(w, m), n) == And(w, n)
  {
  }

  lemma OrSame(w: bv32, m: bv32)
    ensures And(Or(w, m), m) == m
  {
  }

  lemma ClearOther(w: bv32, m: bv32, n: bv32)
    requires And(m, n) == 0
    ensures And(And(w, Not(m)), n) == And(w, n)
  {
  }

  lemma ClearSame(w: bv32, m: bv32)
    ensures And(And(w, Not(m)), m) == 0
  {
  }

  lemma MaskNonzero(i: nat)
    requires i < 32
    ensures Mask(i) != 0
  {
  }

  lemma MasksApart(i: nat, j: nat)
    requires i < 32 && j < 32 && i != j
    ensures And(Mask(i), Mask(j)) == 0
  {
  }

  /** Setting bit `i` sets it and leaves every other bit alone. */
  lemma WordSet(w: bv32, i: nat, j: nat)
    requires i < 32 && j < 32
    ensures Test(With(w, i), j) <==> i == j || Test(w, j)
  {
    hide Mask, And, Or;
    if i == j {
      MaskNonzero(i);
      OrSame(w, Mask(i));
    } else {
      MasksApart(i, j);
      OrOther(w, Mask(i), Mask(j));
    }
  }

  /** Clearing bit `i` clears it and leaves every other bit alone. */
  lemma WordClear(w: bv32, i: nat, j: nat)
    requires i < 32 && j < 32
    ensures Test(Without(w, i), j) <==> i != j && Test(w, j)
  {
    hide Mask, And, Not;
    if i == j {
      ClearSame(w, Mask(i));
    } else {
      MasksApart(i, j);
      ClearOther(w, Mask(i), Mask(j));
    }
  }
}
