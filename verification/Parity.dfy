/** Counting one bits in a byte, and the parity of that count. */
module Parity {
  const BITS: nat := 8

  function TopBit(r: bv8): nat {
    if r >= 0x80 then 1 else 0
  }

  /** The number of one bits among the k highest of r. */
  function TopOnes(r: bv8, k: nat): nat
    decreases k
  {
    if k == 0 then 0 else TopBit(r) + TopOnes(r << 1, k - 1)
  }

  predicate OddTop(r: bv8, k: nat) {
    TopOnes(r, k) % 2 == 1
  }

  predicate Odd(r: bv8) {
    OddTop(r, BITS)
  }

  lemma TopBitLinear(a: bv8, b: bv8)
    ensures TopBit(a ^ b) % 2 == (TopBit(a) + TopBit(b)) % 2
  {}

  lemma ShiftOfSum(a: bv8, b: bv8, k: nat)
    ensures TopOnes((a ^ b) << 1, k) == TopOnes((a << 1) ^ (b << 1), k)
  {
    assert (a ^ b) << 1 == (a << 1) ^ (b << 1);
  }

  lemma TopOnesStep(a: bv8, b: bv8, d: bv8, k: nat, rest: nat)
    requires TopBit(d) % 2 == (TopBit(a) + TopBit(b)) % 2
    requires rest % 2 == (TopOnes(a << 1, k) + TopOnes(b << 1, k)) % 2
    requires TopOnes(d << 1, k) == rest
    ensures TopOnes(d, k + 1) % 2 == (TopOnes(a, k + 1) + TopOnes(b, k + 1)) % 2
  {
    SumParity(TopBit(a), TopBit(b), TopBit(d), TopOnes(a << 1, k), TopOnes(b << 1, k), rest);
  }

  lemma TopOnesOfSum(a: bv8, b: bv8, d: bv8, k: nat)
    requires d == a ^ b
    requires TopOnes((a << 1) ^ (b << 1), k) % 2 == (TopOnes(a << 1, k) + TopOnes(b << 1, k)) % 2
    ensures TopOnes(d, k + 1) % 2 == (TopOnes(a, k + 1) + TopOnes(b, k + 1)) % 2
  {
    ShiftOfSum(a, b, k);
    TopBitLinear(a, b);
    TopOnesStep(a, b, d, k, TopOnes((a << 1) ^ (b << 1), k));
  }

  lemma {:induction false} TopOnesLinear(a: bv8, b: bv8, k: nat)
    ensures TopOnes(a ^ b, k) % 2 == (TopOnes(a, k) + TopOnes(b, k)) % 2
    decreases k
  {
    if k > 0 {
      TopOnesLinear(a << 1, b << 1, k - 1);
      TopOnesOfSum(a, b, a ^ b, k - 1);
    }
  }

  lemma OddTopLinear(a: bv8, b: bv8, k: nat)
    ensures OddTop(a ^ b, k) == (OddTop(a, k) != OddTop(b, k))
  {
    TopOnesLinear(a, b, k);
  }

  lemma OddLinear(a: bv8, b: bv8)
    ensures Odd(a ^ b) == (Odd(a) != Odd(b))
  {
    OddTopLinear(a, b, BITS);
  }

  lemma {:induction false} TrailingZero(r: bv8, j: nat)
    requires j <= 8 && r << j == 0
    ensures TopOnes(r, j + 1) == TopOnes(r, j)
    decreases j
  {
    if j > 0 {
      assert (r << 1) << (j - 1) == r << j;
      TrailingZero(r << 1, j - 1);
    }
  }

  lemma OddTopShift(r: bv8, j: nat)
    requires j < 8 && (r << 1) << j == 0
    ensures OddTop(r << 1, j + 1) == (OddTop(r, j + 1) != (r >= 0x80))
  {
    TrailingZero(r << 1, j);
  }

  /** Shifting left by one drops exactly the top bit from the count. */
  lemma OddShift(r: bv8)
    ensures Odd(r << 1) == (Odd(r) != (r >= 0x80))
  {
    assert (r << 1) << 7 == 0;
    OddTopShift(r, 7);
  }

  lemma SumParity(a: nat, b: nat, d: nat, x: nat, y: nat, z: nat)
    requires d % 2 == (a + b) % 2 && z % 2 == (x + y) % 2
    ensures (d + z) % 2 == (a + x + b + y) % 2
  {}

  /** In how many bits two bytes differ. */
  function Difference(x: bv8, y: bv8): nat {
    TopOnes(x ^ y, BITS)
  }

  lemma OddConstants()
    ensures !Odd(0x00) && Odd(0x07)
  {
    assert TopOnes(0x80, 1) == 1;
  }
}
