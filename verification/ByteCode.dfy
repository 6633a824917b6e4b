/**
 * What both checksums have in common: a register over GF(2) that is multiplied by x^8
 * for each byte that enters it. The operations are parameters, so that each fact is
 * proved once for every register width.
 */
module ByteCode {
  datatype Code<!T> = Code(
    zero: T,
    add: (T, T) -> T,         // addition of polynomials over GF(2)
    mulByte: T -> T,          // times x^8, modulo the generator
    low: bv8 -> T,            // a byte as a polynomial of degree below 8
    width: nat)               // bytes in the register

  /** n multiplications by x^8. */
  function MulBytes<T>(c: Code<T>, a: T, n: nat): T {
    if n == 0 then a else c.mulByte(MulBytes(c, a, n - 1))
  }

  /** The checksum register after `data`: each byte enters at the top as the register moves up by x^8. */
  function Register<T>(c: Code<T>, reg: T, data: seq<bv8>): T {
    if data == [] then reg
    else c.add(c.mulByte(Register(c, reg, data[..|data| - 1])), MulBytes(c, c.low(data[|data| - 1]), c.width))
  }

  lemma RegisterSnoc<T>(c: Code<T>, reg: T, data: seq<bv8>, b: bv8)
    ensures Register(c, reg, data + [b]) == c.add(c.mulByte(Register(c, reg, data)), MulBytes(c, c.low(b), c.width))
  {
    assert (data + [b])[..|data|] == data;
  }

  // ---- Single corrupted bytes ----

  /** Addition cancels, and multiplication by x^8 loses nothing because the generator has a constant term. */
  ghost predicate Lossless<T(!new)>(c: Code<T>) {
    && (forall a, b, d :: c.add(a, b) == c.add(a, d) ==> b == d)
    && (forall a, b, d :: c.add(a, d) == c.add(b, d) ==> a == b)
    && (forall a, b :: c.mulByte(a) == c.mulByte(b) ==> a == b)
    && (forall x, y :: c.low(x) == c.low(y) ==> x == y)
  }

  lemma {:induction false} MulBytesInjective<T(!new)>(c: Code<T>, a: T, b: T, n: nat)
    requires Lossless(c)
    requires MulBytes(c, a, n) == MulBytes(c, b, n)
    ensures a == b
  {
    if n > 0 { MulBytesInjective(c, a, b, n - 1); }
  }

  /** `a` and `b` differ in byte k and nowhere else. */
  ghost predicate DifferOnlyAt(a: seq<bv8>, b: seq<bv8>, k: nat) {
    && |a| == |b| && k < |a| && a[k] != b[k]
    && forall i :: 0 <= i < |a| && i != k ==> a[i] == b[i]
  }

  /** One corrupted byte, at any position, always shows in the register. */
  lemma {:induction false} RegisterSeparates<T(!new)>(c: Code<T>, reg: T, a: seq<bv8>, b: seq<bv8>, k: nat)
    requires Lossless(c) && DifferOnlyAt(a, b, k)
    ensures Register(c, reg, a) != Register(c, reg, b)
  {
    var n := |a| - 1;
    if Register(c, reg, a) == Register(c, reg, b) {
      if k == n {
        assert a[..n] == b[..n];
        MulBytesInjective(c, c.low(a[n]), c.low(b[n]), c.width);
      } else {
        RegisterSeparates(c, reg, a[..n], b[..n], k);
      }
      assert false;
    }
  }

  // ---- Parity ----

  /** The number of differing bits in two messages of the same length, `diff` counting them in one byte. */
  function FlippedBits(diff: (bv8, bv8) -> nat, a: seq<bv8>, b: seq<bv8>): nat
    requires |a| == |b|
  {
    if a == [] then 0
    else FlippedBits(diff, a[..|a| - 1], b[..|b| - 1]) + diff(a[|a| - 1], b[|b| - 1])
  }

  /** `odd` is the parity of the number of terms of a polynomial, and reduction keeps it. */
  ghost predicate KeepsParity<T(!new)>(c: Code<T>, odd: T -> bool, diff: (bv8, bv8) -> nat) {
    && (forall a, b {:trigger c.add(a, b)} :: odd(c.add(a, b)) == (odd(a) != odd(b)))
    && (forall a {:trigger c.mulByte(a)} :: odd(c.mulByte(a)) == odd(a))
    && (forall x, y :: (odd(c.low(x)) != odd(c.low(y))) == (diff(x, y) % 2 == 1))
  }

  lemma {:induction false} MulBytesKeepParity<T(!new)>(c: Code<T>, odd: T -> bool, diff: (bv8, bv8) -> nat, a: T, n: nat)
    requires KeepsParity(c, odd, diff)
    ensures odd(MulBytes(c, a, n)) == odd(a)
  {
    if n > 0 { MulBytesKeepParity(c, odd, diff, a, n - 1); }
  }

  lemma ParityOfByte<T(!new)>(c: Code<T>, odd: T -> bool, diff: (bv8, bv8) -> nat, x: bv8, y: bv8)
    requires KeepsParity(c, odd, diff)
    ensures (odd(c.low(x)) != odd(c.low(y))) == (diff(x, y) % 2 == 1)
  {}

  /** An odd number of flipped bits flips the parity of the register. */
  lemma {:induction false} ParityFollowsFlips<T(!new)>(c: Code<T>, odd: T -> bool, diff: (bv8, bv8) -> nat,
                                                      reg: T, a: seq<bv8>, b: seq<bv8>)
    requires KeepsParity(c, odd, diff) && |a| == |b|
    ensures (odd(Register(c, reg, a)) != odd(Register(c, reg, b))) == (FlippedBits(diff, a, b) % 2 == 1)
  {
    if a != [] {
      var n := |a| - 1;
      ParityFollowsFlips(c, odd, diff, reg, a[..n], b[..n]);
      MulBytesKeepParity(c, odd, diff, c.low(a[n]), c.width);
      MulBytesKeepParity(c, odd, diff, c.low(b[n]), c.width);
      ParityOfByte(c, odd, diff, a[n], b[n]);
      assert FlippedBits(diff, a, b) == FlippedBits(diff, a[..n], b[..n]) + diff(a[n], b[n]);
    }
  }

  // ---- Long division ----

  /** The remainder of the polynomial whose coefficients are the bits of `data`. */
  function Remainder<T>(c: Code<T>, data: seq<bv8>): T {
    if data == [] then c.zero
    else c.add(c.mulByte(Remainder(c, data[..|data| - 1])), c.low(data[|data| - 1]))
  }

  lemma RemainderSnoc<T>(c: Code<T>, data: seq<bv8>, b: bv8)
    ensures Remainder(c, data + [b]) == c.add(c.mulByte(Remainder(c, data)), c.low(b))
  {
    assert (data + [b])[..|data|] == data;
  }

  ghost predicate Triple<T>(a: T, b: T, d: T) { true }

  ghost predicate Linear<T(!new)>(c: Code<T>) {
    && c.low(0) == c.zero && c.mulByte(c.zero) == c.zero
    && (forall a :: c.add(a, c.zero) == a)
    && (forall a, b {:trigger c.mulByte(c.add(a, b))} :: c.mulByte(c.add(a, b)) == c.add(c.mulByte(a), c.mulByte(b)))
    && (forall a, b, d {:trigger Triple(a, b, d)} :: Triple(a, b, d) ==> c.add(c.add(a, b), d) == c.add(a, c.add(b, d)))
  }

  function ZeroBytes(n: nat): (zs: seq<bv8>)
    ensures |zs| == n
  {
    if n == 0 then [] else ZeroBytes(n - 1) + [0]
  }

  /** Appending n zero bytes multiplies the remainder by x^(8n). */
  lemma {:induction false} RemainderZeros<T(!new)>(c: Code<T>, data: seq<bv8>, n: nat)
    requires Linear(c)
    ensures Remainder(c, data + ZeroBytes(n)) == MulBytes(c, Remainder(c, data), n)
  {
    if n == 0 {
      assert data + ZeroBytes(0) == data;
    } else {
      RemainderZeros(c, data, n - 1);
      assert data + ZeroBytes(n) == (data + ZeroBytes(n - 1)) + [0];
      RemainderSnoc(c, data + ZeroBytes(n - 1), 0);
    }
  }

  lemma {:induction false} MulBytesLinear<T(!new)>(c: Code<T>, a: T, b: T, n: nat)
    requires Linear(c)
    ensures MulBytes(c, c.add(a, b), n) == c.add(MulBytes(c, a, n), MulBytes(c, b, n))
    ensures MulBytes(c, c.zero, n) == c.zero
  {
    if n > 0 { MulBytesLinear(c, a, b, n - 1); }
  }

  lemma {:induction false} MulBytesCommute<T(!new)>(c: Code<T>, a: T, n: nat)
    ensures MulBytes(c, c.mulByte(a), n) == c.mulByte(MulBytes(c, a, n))
  {
    if n > 0 { MulBytesCommute(c, a, n - 1); }
  }

  /** One more byte m keeps the split of a register r into its initial-value part a and its message part d. */
  lemma SplitStep<T(!new)>(c: Code<T>, r: T, a: T, d: T, m: T, n: nat)
    requires Linear(c)
    requires r == c.add(a, MulBytes(c, d, n))
    ensures c.add(c.mulByte(r), MulBytes(c, m, n)) == c.add(c.mulByte(a), MulBytes(c, c.add(c.mulByte(d), m), n))
  {
    MulBytesLinear(c, c.mulByte(d), m, n);
    MulBytesCommute(c, d, n);
    assert Triple(c.mulByte(a), c.mulByte(MulBytes(c, d, n)), MulBytes(c, m, n));
  }

  /**
   * The register is the remainder of the message times x^(8 * width), plus the initial
   * value times x^(8 * length).
   */
  lemma {:induction false} RegisterIsRemainder<T(!new)>(c: Code<T>, reg: T, data: seq<bv8>)
    requires Linear(c)
    ensures Register(c, reg, data) == c.add(MulBytes(c, reg, |data|), Remainder(c, data + ZeroBytes(c.width)))
  {
    RemainderZeros(c, data, c.width);
    if data == [] {
      MulBytesLinear(c, reg, reg, c.width);
    } else {
      var n := |data| - 1;
      var rest := data[..n];
      RegisterIsRemainder(c, reg, rest);
      RemainderZeros(c, rest, c.width);
      SplitStep(c, Register(c, reg, rest), MulBytes(c, reg, n), Remainder(c, rest), c.low(data[n]), c.width);
    }
  }

  /**
   * In a two-byte register the byte `lo` only moves up by x^8; the byte `hi` that leaves
   * at the top is reduced together with the incoming byte m.
   */
  lemma WordStep<T(!new)>(c: Code<T>, hi: T, lo: T, m: T)
    requires Linear(c)
    requires forall a, b {:trigger c.add(a, b)} :: c.add(a, b) == c.add(b, a)
    ensures c.add(c.mulByte(c.add(hi, lo)), MulBytes(c, m, 2))
         == c.add(c.mulByte(lo), c.mulByte(c.add(hi, c.mulByte(m))))
  {
    assert MulBytes(c, m, 2) == c.mulByte(MulBytes(c, m, 1));
    assert MulBytes(c, m, 1) == c.mulByte(MulBytes(c, m, 0));
    assert Triple(c.mulByte(lo), c.mulByte(hi), c.mulByte(c.mulByte(m)));
  }
}
