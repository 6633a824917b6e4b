/** CRC-8 of the actuator link: generator x^8 + x^2 + x + 1. */
module Crc8 {
  import opened ByteCode
  import opened Parity

  const INITIAL_VALUE: bv8 := 0xDE
  const FINAL_XOR: bv8 := 0x4A

  // The lookup table, one constant per line of the source's table.
  const ROW_0: seq<bv8> := [0x00, 0x07, 0x0E, 0x09, 0x1C, 0x1B, 0x12, 0x15, 0x38, 0x3F, 0x36, 0x31, 0x24, 0x23, 0x2A, 0x2D]
  const ROW_1: seq<bv8> := [0x70, 0x77, 0x7E, 0x79, 0x6C, 0x6B, 0x62, 0x65, 0x48, 0x4F, 0x46, 0x41, 0x54, 0x53, 0x5A, 0x5D]
  const ROW_2: seq<bv8> := [0xE0, 0xE7, 0xEE, 0xE9, 0xFC, 0xFB, 0xF2, 0xF5, 0xD8, 0xDF, 0xD6, 0xD1, 0xC4, 0xC3, 0xCA, 0xCD]
  const ROW_3: seq<bv8> := [0x90, 0x97, 0x9E, 0x99, 0x8C, 0x8B, 0x82, 0x85, 0xA8, 0xAF, 0xA6, 0xA1, 0xB4, 0xB3, 0xBA, 0xBD]
  const ROW_4: seq<bv8> := [0xC7, 0xC0, 0xC9, 0xCE, 0xDB, 0xDC, 0xD5, 0xD2, 0xFF, 0xF8, 0xF1, 0xF6, 0xE3, 0xE4, 0xED, 0xEA]
  const ROW_5: seq<bv8> := [0xB7, 0xB0, 0xB9, 0xBE, 0xAB, 0xAC, 0xA5, 0xA2, 0x8F, 0x88, 0x81, 0x86, 0x93, 0x94, 0x9D, 0x9A]
  const ROW_6: seq<bv8> := [0x27, 0x20, 0x29, 0x2E, 0x3B, 0x3C, 0x35, 0x32, 0x1F, 0x18, 0x11, 0x16, 0x03, 0x04, 0x0D, 0x0A]
  const ROW_7: seq<bv8> := [0x57, 0x50, 0x59, 0x5E, 0x4B, 0x4C, 0x45, 0x42, 0x6F, 0x68, 0x61, 0x66, 0x73, 0x74, 0x7D, 0x7A]
  const ROW_8: seq<bv8> := [0x89, 0x8E, 0x87, 0x80, 0x95, 0x92, 0x9B, 0x9C, 0xB1, 0xB6, 0xBF, 0xB8, 0xAD, 0xAA, 0xA3, 0xA4]
  const ROW_9: seq<bv8> := [0xF9, 0xFE, 0xF7, 0xF0, 0xE5, 0xE2, 0xEB, 0xEC, 0xC1, 0xC6, 0xCF, 0xC8, 0xDD, 0xDA, 0xD3, 0xD4]
  const ROW_A: seq<bv8> := [0x69, 0x6E, 0x67, 0x60, 0x75, 0x72, 0x7B, 0x7C, 0x51, 0x56, 0x5F, 0x58, 0x4D, 0x4A, 0x43, 0x44]
  const ROW_B: seq<bv8> := [0x19, 0x1E, 0x17, 0x10, 0x05, 0x02, 0x0B, 0x0C, 0x21, 0x26, 0x2F, 0x28, 0x3D, 0x3A, 0x33, 0x34]
  const ROW_C: seq<bv8> := [0x4E, 0x49, 0x40, 0x47, 0x52, 0x55, 0x5C, 0x5B, 0x76, 0x71, 0x78, 0x7F, 0x6A, 0x6D, 0x64, 0x63]
  const ROW_D: seq<bv8> := [0x3E, 0x39, 0x30, 0x37, 0x22, 0x25, 0x2C, 0x2B, 0x06, 0x01, 0x08, 0x0F, 0x1A, 0x1D, 0x14, 0x13]
  const ROW_E: seq<bv8> := [0xAE, 0xA9, 0xA0, 0xA7, 0xB2, 0xB5, 0xBC, 0xBB, 0x96, 0x91, 0x98, 0x9F, 0x8A, 0x8D, 0x84, 0x83]
  const ROW_F: seq<bv8> := [0xDE, 0xD9, 0xD0, 0xD7, 0xC2, 0xC5, 0xCC, 0xCB, 0xE6, 0xE1, 0xE8, 0xEF, 0xFA, 0xFD, 0xF4, 0xF3]

  function Row(hi: bv8): (row: seq<bv8>)
    ensures |row| == 16
  {
    match hi
    case 0 => ROW_0
    case 1 => ROW_1
    case 2 => ROW_2
    case 3 => ROW_3
    case 4 => ROW_4
    case 5 => ROW_5
    case 6 => ROW_6
    case 7 => ROW_7
    case 8 => ROW_8
    case 9 => ROW_9
    case 10 => ROW_A
    case 11 => ROW_B
    case 12 => ROW_C
    case 13 => ROW_D
    case 14 => ROW_E
    case _ => ROW_F
  }

  function Table(i: bv8): bv8 {
    Row(i >> 4)[(i & 0xF) as int]
  }

  // ---- Arithmetic modulo the generator, one bit at a time ----

  /** Multiply by x and reduce: the carry c leaves c * (x^2 + x + 1). */
  function Shift(rem: bv8): bv8 {
    (rem << 1) ^ (rem >> 7) ^ ((rem >> 7) << 1) ^ ((rem >> 7) << 2)
  }

  /** k multiplications by x. */
  function Shifts(rem: bv8, k: nat): bv8 {
    if k == 0 then rem else Shift(Shifts(rem, k - 1))
  }

  function Add(a: bv8, b: bv8): bv8 { a ^ b }
  function Mul(a: bv8): bv8 { Shifts(a, BITS) }
  function Low(b: bv8): bv8 { b }

  const CODE: Code<bv8> := Code(0, Add, Mul, Low, 1)

  function Checksum(data: seq<bv8>): bv8 {
    Register(CODE, INITIAL_VALUE, data) ^ FINAL_XOR
  }

  lemma ShiftLinear(a: bv8, b: bv8)
    ensures Shift(a ^ b) == Shift(a) ^ Shift(b)
  {}

  lemma {:induction false} ShiftsLinear(a: bv8, b: bv8, k: nat)
    ensures Shifts(a ^ b, k) == Shifts(a, k) ^ Shifts(b, k)
  {
    if k > 0 {
      ShiftsLinear(a, b, k - 1);
      ShiftLinear(Shifts(a, k - 1), Shifts(b, k - 1));
    }
  }

  lemma ShiftInjective(a: bv8, b: bv8)
    requires Shift(a) == Shift(b)
    ensures a == b
  {}

  lemma {:induction false} ShiftsInjective(a: bv8, b: bv8, k: nat)
    requires Shifts(a, k) == Shifts(b, k)
    ensures a == b
  {
    if k > 0 {
      ShiftInjective(Shifts(a, k - 1), Shifts(b, k - 1));
      ShiftsInjective(a, b, k - 1);
    }
  }

  lemma {:induction false} ShiftsZero(k: nat)
    ensures Shifts(0, k) == 0
  {
    if k > 0 { ShiftsZero(k - 1); }
  }

  lemma {:induction false} ShiftsKeepParity(a: bv8, k: nat)
    ensures Odd(Shifts(a, k)) == Odd(a)
  {
    if k > 0 {
      ShiftsKeepParity(a, k - 1);
      ShiftKeepsParity(Shifts(a, k - 1));
    }
  }

  /** The generator has an even number of terms. */
  lemma ShiftKeepsParity(a: bv8)
    ensures Odd(Shift(a)) == Odd(a)
  {
    var carried: bv8 := if a >= 0x80 then 0x07 else 0x00;
    ShiftByCase(a);
    OddLinear(a << 1, carried);
    OddShift(a);
    OddConstants();
  }

  lemma ShiftByCase(a: bv8)
    ensures Shift(a) == (a << 1) ^ (if a >= 0x80 then 0x07 else 0x00)
  {}

  // ---- The table ----

  function Entry(i: bv8): bv8 {
    Shift(Shift(Shift(Shift(Shift(Shift(Shift(Shift(i))))))))
  }

  ghost predicate RowCorrect(base: bv8, row: seq<bv8>)
    requires |row| == 16
  {
    && row[0] == Entry(base) && row[1] == Entry(base + 1) && row[2] == Entry(base + 2) && row[3] == Entry(base + 3)
    && row[4] == Entry(base + 4) && row[5] == Entry(base + 5) && row[6] == Entry(base + 6) && row[7] == Entry(base + 7)
    && row[8] == Entry(base + 8) && row[9] == Entry(base + 9) && row[10] == Entry(base + 10) && row[11] == Entry(base + 11)
    && row[12] == Entry(base + 12) && row[13] == Entry(base + 13) && row[14] == Entry(base + 14) && row[15] == Entry(base + 15)
  }

  lemma Rows0()
    ensures RowCorrect(0x00, ROW_0) && RowCorrect(0x10, ROW_1)
  {}

  lemma Rows2()
    ensures RowCorrect(0x20, ROW_2) && RowCorrect(0x30, ROW_3)
  {}

  lemma Rows4()
    ensures RowCorrect(0x40, ROW_4) && RowCorrect(0x50, ROW_5)
  {}

  lemma Rows6()
    ensures RowCorrect(0x60, ROW_6) && RowCorrect(0x70, ROW_7)
  {}

  lemma Rows8()
    ensures RowCorrect(0x80, ROW_8) && RowCorrect(0x90, ROW_9)
  {}

  lemma RowsA()
    ensures RowCorrect(0xA0, ROW_A) && RowCorrect(0xB0, ROW_B)
  {}

  lemma RowsC()
    ensures RowCorrect(0xC0, ROW_C) && RowCorrect(0xD0, ROW_D)
  {}

  lemma RowsE()
    ensures RowCorrect(0xE0, ROW_E) && RowCorrect(0xF0, ROW_F)
  {}

  lemma RowEntry(i: bv8, row: seq<bv8>)
    requires |row| == 16 && RowCorrect(i & 0xF0, row)
    ensures row[(i & 0xF) as int] == Entry(i)
  {}

  lemma RowCorrectLow(i: bv8)
    requires i < 0x80
    ensures RowCorrect(i & 0xF0, Row(i >> 4))
  {
    Rows0(); Rows2(); Rows4(); Rows6();
  }

  lemma RowCorrectHigh(i: bv8)
    requires i >= 0x80
    ensures RowCorrect(i & 0xF0, Row(i >> 4))
  {
    Rows8(); RowsA(); RowsC(); RowsE();
  }

  lemma EntryIsShifts(i: bv8)
    ensures Shifts(i, 8) == Entry(i)
  {
    assert Shifts(i, 1) == Shift(i);
    assert Shifts(i, 2) == Shift(Shift(i));
    assert Shifts(i, 3) == Shift(Shift(Shift(i)));
    assert Shifts(i, 4) == Shift(Shift(Shift(Shift(i))));
    assert Shifts(i, 5) == Shift(Shift(Shift(Shift(Shift(i)))));
    assert Shifts(i, 6) == Shift(Shift(Shift(Shift(Shift(Shift(i))))));
    assert Shifts(i, 7) == Shift(Shift(Shift(Shift(Shift(Shift(Shift(i)))))));
  }

  /** Every one of the 256 table entries is its index times x^8, modulo the generator. */
  lemma TableCorrect(i: bv8)
    ensures Table(i) == Mul(i)
  {
    if i < 0x80 { RowCorrectLow(i); } else { RowCorrectHigh(i); }
    RowEntry(i, Row(i >> 4));
    EntryIsShifts(i);
  }

  method Lookup(i: bv8) returns (entry: bv8)
    ensures entry == Mul(i)
  {
    TableCorrect(i);
    entry := Table(i);
  }

  method CalcRaw(data: seq<bv8>) returns (crc: bv8)
    ensures crc == Checksum(data)
  {
    crc := INITIAL_VALUE;
    for i := 0 to |data|
      invariant crc == Register(CODE, INITIAL_VALUE, data[..i])
    {
      CodeStep(data[i], crc);
      RegisterSnoc(CODE, INITIAL_VALUE, data[..i], data[i]);
      assert data[..i + 1] == data[..i] + [data[i]];
      crc := Lookup(data[i] ^ crc);
    }
    assert data[..|data|] == data;
    crc := crc ^ FINAL_XOR;
  }

  lemma CodeStep(b: bv8, reg: bv8)
    ensures CODE.add(CODE.mulByte(reg), MulBytes(CODE, CODE.low(b), CODE.width)) == Mul(b ^ reg)
  {
    EnteringByte(b);
    Operations(reg, Mul(b));
    MulSum(b, reg);
  }

  /** The register is one byte wide: a byte enters it multiplied by x^8. */
  lemma EnteringByte(b: bv8)
    ensures MulBytes(CODE, CODE.low(b), CODE.width) == Mul(b)
  {
    assert MulBytes(CODE, b, 1) == CODE.mulByte(MulBytes(CODE, b, 0));
  }

  lemma Operations(a: bv8, b: bv8)
    ensures CODE.add(CODE.mulByte(a), b) == Mul(a) ^ b
  {}

  /** The register after one more byte, bit by bit. */
  lemma NextByte(data: seq<bv8>, b: bv8, reg: bv8, next: bv8)
    requires Register(CODE, INITIAL_VALUE, data) == reg && Entry(b ^ reg) == next
    ensures Register(CODE, INITIAL_VALUE, data + [b]) == next
  {
    CodeStep(b, reg);
    RegisterSnoc(CODE, INITIAL_VALUE, data, b);
    EntryIsShifts(b ^ reg);
  }

  lemma MulSum(b: bv8, reg: bv8)
    ensures Mul(b ^ reg) == Mul(reg) ^ Mul(b)
  {
    ShiftsLinear(reg, b, BITS);
    XorLaws(b, reg, 0);
  }

  lemma XorLaws(a: bv8, b: bv8, d: bv8)
    ensures a ^ b == b ^ a
    ensures (a ^ b) ^ d == a ^ (b ^ d)
    ensures a ^ 0 == a
  {}

  lemma XorCancel(a: bv8, b: bv8, d: bv8)
    ensures a ^ b == a ^ d ==> b == d
    ensures a ^ d == b ^ d ==> a == b
  {}

  // ---- What the checksum is and what it detects ----

  lemma MulOfSums()
    ensures forall a: bv8, b: bv8 {:trigger CODE.mulByte(CODE.add(a, b))} ::
      CODE.mulByte(CODE.add(a, b)) == CODE.add(CODE.mulByte(a), CODE.mulByte(b))
  {
    forall a: bv8, b: bv8
      ensures CODE.mulByte(CODE.add(a, b)) == CODE.add(CODE.mulByte(a), CODE.mulByte(b))
    {
      ShiftsLinear(a, b, BITS);
    }
  }

  lemma SumsRegroup()
    ensures forall a: bv8, b: bv8, d: bv8 {:trigger Triple(a, b, d)} ::
      Triple(a, b, d) ==> CODE.add(CODE.add(a, b), d) == CODE.add(a, CODE.add(b, d))
  {
    forall a: bv8, b: bv8, d: bv8
      ensures CODE.add(CODE.add(a, b), d) == CODE.add(a, CODE.add(b, d))
    {
      XorLaws(a, b, d);
    }
  }

  lemma ZeroIsNeutral()
    ensures forall a: bv8 :: CODE.add(a, CODE.zero) == a
  {
    forall a: bv8 ensures CODE.add(a, CODE.zero) == a { XorLaws(a, a, a); }
  }

  lemma CodeLinear()
    ensures Linear(CODE)
  {
    ShiftsZero(BITS);
    MulOfSums();
    SumsRegroup();
    ZeroIsNeutral();
  }

  lemma CodeLossless()
    ensures Lossless(CODE)
  {
    forall a: bv8, b: bv8, d: bv8
      ensures CODE.add(a, b) == CODE.add(a, d) ==> b == d
      ensures CODE.add(a, d) == CODE.add(b, d) ==> a == b
    {
      XorCancel(a, b, d);
    }
    forall a: bv8, b: bv8 ensures CODE.mulByte(a) == CODE.mulByte(b) ==> a == b {
      if Mul(a) == Mul(b) { ShiftsInjective(a, b, BITS); }
    }
  }

  lemma ByteFlips(x: bv8, y: bv8)
    ensures (Odd(CODE.low(x)) != Odd(CODE.low(y))) == (Difference(x, y) % 2 == 1)
  {
    OddLinear(x, y);
  }

  lemma CodeKeepsParity()
    ensures KeepsParity(CODE, Odd, Difference)
  {
    forall a: bv8, b: bv8 ensures Odd(CODE.add(a, b)) == (Odd(a) != Odd(b)) { OddLinear(a, b); }
    forall a: bv8 ensures Odd(CODE.mulByte(a)) == Odd(a) { ShiftsKeepParity(a, BITS); }
    forall x: bv8, y: bv8
      ensures (Odd(CODE.low(x)) != Odd(CODE.low(y))) == (Difference(x, y) % 2 == 1)
    {
      ByteFlips(x, y);
    }
  }

  /**
   * The checksum, with its final mask removed, is the remainder of the message times x^8,
   * plus the initial value times x^(8 * length).
   */
  lemma ChecksumIsRemainder(data: seq<bv8>)
    ensures Checksum(data) == (MulBytes(CODE, INITIAL_VALUE, |data|) ^ Remainder(CODE, data + ZeroBytes(1))) ^ FINAL_XOR
  {
    CodeLinear();
    RegisterIsRemainder(CODE, INITIAL_VALUE, data);
  }

  /** A message with one corrupted byte never keeps its checksum. */
  lemma SingleByteErrorDetected(a: seq<bv8>, b: seq<bv8>, k: nat)
    requires DifferOnlyAt(a, b, k)
    ensures Checksum(a) != Checksum(b)
  {
    CodeLossless();
    RegisterSeparates(CODE, INITIAL_VALUE, a, b, k);
    XorCancel(Register(CODE, INITIAL_VALUE, a), Register(CODE, INITIAL_VALUE, b), FINAL_XOR);
  }

  /** An odd number of flipped bits, anywhere in the message, changes the checksum. */
  lemma OddErrorDetected(a: seq<bv8>, b: seq<bv8>)
    requires |a| == |b| && FlippedBits(Difference, a, b) % 2 == 1
    ensures Checksum(a) != Checksum(b)
  {
    CodeKeepsParity();
    ParityFollowsFlips(CODE, Odd, Difference, INITIAL_VALUE, a, b);
    XorCancel(Register(CODE, INITIAL_VALUE, a), Register(CODE, INITIAL_VALUE, b), FINAL_XOR);
  }
}
