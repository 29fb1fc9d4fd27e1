/** Bitwise operations on machine words, which are read as binary numerals. */
module Bitwise {
  import opened Prelude

  function Xor(a: nat, b: nat): nat
    decreases a + b
  {
    if a == 0 && b == 0 then 0 else (if a % 2 == b % 2 then 0 else 1) + 2 * Xor(a / 2, b / 2)
  }

  function And(a: nat, b: nat): nat
  {
    if a == 0 || b == 0 then 0 else (if a % 2 == 1 && b % 2 == 1 then 1 else 0) + 2 * And(a / 2, b / 2)
  }

  lemma {:induction false} XorIsZeroIff(a: nat, b: nat)
    ensures Xor(a, b) == 0 <==> a == b
    decreases a + b
  {
    if a == 0 && b == 0 {
    } else {
      XorIsZeroIff(a / 2, b / 2);
    }
  }

  /** `(a ^ b) >> 1 == 0`: the words agree but for their lowest bit. */
  lemma ShiftedXorIsZeroIff(a: nat, b: nat)
    ensures Xor(a, b) / 2 == 0 <==> a / 2 == b / 2
  {
    XorIsZeroIff(a / 2, b / 2);
    assert Xor(a, b) / 2 == Xor(a / 2, b / 2);
  }

  lemma {:induction false} AndAllOnes(x: nat, k: nat)
    requires x < Pow2(k)
    ensures And(x, Pow2(k) - 1) == x
  {
    if k > 0 && x > 0 {
      assert Pow2(k) - 1 == 2 * (Pow2(k - 1) - 1) + 1;
      AndAllOnes(x / 2, k - 1);
    }
  }

  lemma AndEven(x: nat, m: nat)
    ensures And(x, 2 * m) == 2 * And(x / 2, m)
  {
  }

  lemma AndMultipleOf4(x: nat, m: nat)
    ensures And(x, 4 * m) == 4 * And(x / 4, m)
  {
    AndEven(x, 2 * m);
    AndEven(x / 2, m);
    assert x / 2 / 2 == x / 4;
  }

  lemma AndMultipleOf16(x: nat, m: nat)
    ensures And(x, 16 * m) == 16 * And(x / 16, m)
  {
    AndMultipleOf4(x, 4 * m);
    AndMultipleOf4(x / 4, m);
    assert x / 4 / 4 == x / 16;
  }

  /** Masking with a word of `k + 4` bits whose low four are zero rounds down to a multiple of 16. */
  lemma MaskRoundsDown(x: nat, k: nat)
    requires x < 16 * Pow2(k)
    ensures And(x, 16 * Pow2(k) - 16) == x - x % 16
  {
    AndMultipleOf16(x, Pow2(k) - 1);
    AndAllOnes(x / 16, k);
  }
}
