/** Numbers as bytes, by counting; fields of two bytes are little-endian. */
module Bytes {
  /** The byte that counting to v arrives at; it wraps around at 256. */
  function Byte(v: nat): bv8 {
    if v == 0 then 0 else Byte(v - 1) + 1
  }

  function Value(b: bv8): nat
    decreases b
  {
    if b == 0 then 0 else Value(b - 1) + 1
  }

  function Low(v: nat): bv8 {
    Byte(v % 0x100)
  }

  function High(v: nat): bv8 {
    Byte(v / 0x100)
  }

  function Value16(lo: bv8, hi: bv8): nat {
    Value(lo) + 0x100 * Value(hi)
  }

  lemma {:induction false} ByteSum(a: nat, b: nat)
    ensures Byte(a + b) == Byte(a) + Byte(b)
  {
    if b > 0 {
      ByteSum(a, b - 1);
      Associates(Byte(a), Byte(b - 1));
    }
  }

  lemma Associates(x: bv8, y: bv8)
    ensures (x + y) + 1 == x + (y + 1)
  {}

  /** Counting to w arrives at m, without coming back to zero or passing m before. */
  ghost predicate CountsTo(w: nat, m: bv8) {
    Byte(w) == m && forall u :: 0 < u < w ==> 0 < Byte(u) < m
  }

  lemma NoOverflow(m: bv8, x: bv8)
    requires 0 < x < m <= 0x80
    ensures 0 < m + x
    ensures m <= 0x40 ==> 0 < m < m + m && x < m + m && m + x < m + m
  {}

  lemma Doubles(w: nat, m: bv8)
    requires w > 0 && 0 < m <= 0x40 && CountsTo(w, m)
    ensures CountsTo(w + w, m + m)
  {
    ByteSum(w, w);
    forall u | 0 < u < w + w ensures 0 < Byte(u) < m + m {
      if u < w {
        NoOverflow(m, Byte(u));
      } else if u == w {
        assert 0 < m < m + m;
      } else {
        ByteSum(w, u - w);
        NoOverflow(m, Byte(u - w));
      }
    }
  }

  lemma CountsToHalf(n: nat)
    requires n == 128
    ensures CountsTo(n, 0x80)
  {
    var one: nat, two: nat, eight: nat := 1, 2, 8;
    assert Byte(one) == Byte(one - 1) + 1;
    Doubles(one, 0x01);
    Doubles(two, 0x02);
    Doubles(two + two, 0x04);
    Doubles(eight, 0x08);
    Doubles(eight + eight, 0x10);
    Doubles(n / 4, 0x20);
    Doubles(n / 2, 0x40);
  }

  lemma NotZero(v: nat)
    requires 0 < v < 0x100
    ensures Byte(v) != 0
  {
    var half: nat := 128;
    CountsToHalf(half);
    if v > half {
      ByteSum(half, v - half);
      NoOverflow(0x80, Byte(v - half));
    }
  }

  lemma {:induction false} ByteValue(v: nat)
    requires v < 0x100
    ensures Value(Byte(v)) == v
  {
    if v > 0 {
      NotZero(v);
      ByteValue(v - 1);
      OneLess(Byte(v - 1));
    }
  }

  lemma OneLess(x: bv8)
    ensures (x + 1) - 1 == x
  {}

  lemma WordValue(v: nat)
    requires v < 0x1_0000
    ensures Value16(Low(v), High(v)) == v
  {
    ByteValue(v % 0x100);
    ByteValue(v / 0x100);
  }

  lemma OneDown(b: bv8)
    requires b != 0
    ensures (b - 1) as nat == b as nat - 1
  {}

  /** Counting agrees with the conversion of bytes to numbers. */
  lemma {:induction false} ValueIsNumber(b: bv8)
    ensures Value(b) == b as nat
    decreases b
  {
    if b != 0 {
      ValueIsNumber(b - 1);
      OneDown(b);
    }
  }

  lemma ByteNumber(v: nat)
    requires v < 0x100
    ensures Byte(v) as nat == v
  {
    ByteValue(v);
    ValueIsNumber(Byte(v));
  }
}
