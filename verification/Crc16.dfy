/** CRC-16 of the crash log: generator x^16 + x^12 + x^5 + 1. */
module Crc16 {
  import opened ByteCode
  import opened Parity

  const INITIAL_VALUE: bv16 := 0x1541

  // The lookup table, one constant per line of the source's table.
  const ROW_0: seq<bv16> := [0x0000, 0x1021, 0x2042, 0x3063, 0x4084, 0x50A5, 0x60C6, 0x70E7, 0x8108, 0x9129, 0xA14A, 0xB16B, 0xC18C, 0xD1AD, 0xE1CE, 0xF1EF]
  const ROW_1: seq<bv16> := [0x1231, 0x0210, 0x3273, 0x2252, 0x52B5, 0x4294, 0x72F7, 0x62D6, 0x9339, 0x8318, 0xB37B, 0xA35A, 0xD3BD, 0xC39C, 0xF3FF, 0xE3DE]
  const ROW_2: seq<bv16> := [0x2462, 0x3443, 0x0420, 0x1401, 0x64E6, 0x74C7, 0x44A4, 0x5485, 0xA56A, 0xB54B, 0x8528, 0x9509, 0xE5EE, 0xF5CF, 0xC5AC, 0xD58D]
  const ROW_3: seq<bv16> := [0x3653, 0x2672, 0x1611, 0x0630, 0x76D7, 0x66F6, 0x5695, 0x46B4, 0xB75B, 0xA77A, 0x9719, 0x8738, 0xF7DF, 0xE7FE, 0xD79D, 0xC7BC]
  const ROW_4: seq<bv16> := [0x48C4, 0x58E5, 0x6886, 0x78A7, 0x0840, 0x1861, 0x2802, 0x3823, 0xC9CC, 0xD9ED, 0xE98E, 0xF9AF, 0x8948, 0x9969, 0xA90A, 0xB92B]
  const ROW_5: seq<bv16> := [0x5AF5, 0x4AD4, 0x7AB7, 0x6A96, 0x1A71, 0x0A50, 0x3A33, 0x2A12, 0xDBFD, 0xCBDC, 0xFBBF, 0xEB9E, 0x9B79, 0x8B58, 0xBB3B, 0xAB1A]
  const ROW_6: seq<bv16> := [0x6CA6, 0x7C87, 0x4CE4, 0x5CC5, 0x2C22, 0x3C03, 0x0C60, 0x1C41, 0xEDAE, 0xFD8F, 0xCDEC, 0xDDCD, 0xAD2A, 0xBD0B, 0x8D68, 0x9D49]
  const ROW_7: seq<bv16> := [0x7E97, 0x6EB6, 0x5ED5, 0x4EF4, 0x3E13, 0x2E32, 0x1E51, 0x0E70, 0xFF9F, 0xEFBE, 0xDFDD, 0xCFFC, 0xBF1B, 0xAF3A, 0x9F59, 0x8F78]
  const ROW_8: seq<bv16> := [0x9188, 0x81A9, 0xB1CA, 0xA1EB, 0xD10C, 0xC12D, 0xF14E, 0xE16F, 0x1080, 0x00A1, 0x30C2, 0x20E3, 0x5004, 0x4025, 0x7046, 0x6067]
  const ROW_9: seq<bv16> := [0x83B9, 0x9398, 0xA3FB, 0xB3DA, 0xC33D, 0xD31C, 0xE37F, 0xF35E, 0x02B1, 0x1290, 0x22F3, 0x32D2, 0x4235, 0x5214, 0x6277, 0x7256]
  const ROW_A: seq<bv16> := [0xB5EA, 0xA5CB, 0x95A8, 0x8589, 0xF56E, 0xE54F, 0xD52C, 0xC50D, 0x34E2, 0x24C3, 0x14A0, 0x0481, 0x7466, 0x6447, 0x5424, 0x4405]
  const ROW_B: seq<bv16> := [0xA7DB, 0xB7FA, 0x8799, 0x97B8, 0xE75F, 0xF77E, 0xC71D, 0xD73C, 0x26D3, 0x36F2, 0x0691, 0x16B0, 0x6657, 0x7676, 0x4615, 0x5634]
  const ROW_C: seq<bv16> := [0xD94C, 0xC96D, 0xF90E, 0xE92F, 0x99C8, 0x89E9, 0xB98A, 0xA9AB, 0x5844, 0x4865, 0x7806, 0x6827, 0x18C0, 0x08E1, 0x3882, 0x28A3]
  const ROW_D: seq<bv16> := [0xCB7D, 0xDB5C, 0xEB3F, 0xFB1E, 0x8BF9, 0x9BD8, 0xABBB, 0xBB9A, 0x4A75, 0x5A54, 0x6A37, 0x7A16, 0x0AF1, 0x1AD0, 0x2AB3, 0x3A92]
  const ROW_E: seq<bv16> := [0xFD2E, 0xED0F, 0xDD6C, 0xCD4D, 0xBDAA, 0xAD8B, 0x9DE8, 0x8DC9, 0x7C26, 0x6C07, 0x5C64, 0x4C45, 0x3CA2, 0x2C83, 0x1CE0, 0x0CC1]
  const ROW_F: seq<bv16> := [0xEF1F, 0xFF3E, 0xCF5D, 0xDF7C, 0xAF9B, 0xBFBA, 0x8FD9, 0x9FF8, 0x6E17, 0x7E36, 0x4E55, 0x5E74, 0x2E93, 0x3EB2, 0x0ED1, 0x1EF0]

  function Row(hi: bv8): (row: seq<bv16>)
    ensures |row| == 16
  {
    match hi
    case 0 => ROW_0
    case 1 => ROW_1
    case 2 => ROW_2
    case 3 => ROW_3
    case 4 => ROW_4
    case 5 => ROW_5
    case 6 => ROW_6
    case 7 => ROW_7
    case 8 => ROW_8
    case 9 => ROW_9
    case 10 => ROW_A
    case 11 => ROW_B
    case 12 => ROW_C
    case 13 => ROW_D
    case 14 => ROW_E
    case _ => ROW_F
  }

  function Table(i: bv8): bv16 {
    Row(i >> 4)[(i & 0xF) as int]
  }

  // ---- Arithmetic modulo the generator, one bit at a time ----

  /** Multiply by x and reduce: the carry c leaves c * (x^12 + x^5 + 1). */
  function Shift(rem: bv16): bv16 {
    (rem << 1) ^ (rem >> 15) ^ ((rem >> 15) << 5) ^ ((rem >> 15) << 12)
  }

  /** k multiplications by x. */
  function Shifts(rem: bv16, k: nat): bv16 {
    if k == 0 then rem else Shift(Shifts(rem, k - 1))
  }

  function Add(a: bv16, b: bv16): bv16 { a ^ b }
  function Mul(a: bv16): bv16 { Shifts(a, BITS) }
  function Low(b: bv8): bv16 { b as bv16 }

  const CODE: Code<bv16> := Code(0, Add, Mul, Low, 2)

  function Checksum(data: seq<bv8>): bv16 {
    Register(CODE, INITIAL_VALUE, data)
  }

  lemma ShiftLinear(a: bv16, b: bv16)
    ensures Shift(a ^ b) == Shift(a) ^ Shift(b)
  {}

  lemma {:induction false} ShiftsLinear(a: bv16, b: bv16, k: nat)
    ensures Shifts(a ^ b, k) == Shifts(a, k) ^ Shifts(b, k)
  {
    if k > 0 {
      ShiftsLinear(a, b, k - 1);
      ShiftLinear(Shifts(a, k - 1), Shifts(b, k - 1));
    }
  }

  lemma ShiftInjective(a: bv16, b: bv16)
    requires Shift(a) == Shift(b)
    ensures a == b
  {}

  lemma {:induction false} ShiftsInjective(a: bv16, b: bv16, k: nat)
    requires Shifts(a, k) == Shifts(b, k)
    ensures a == b
  {
    if k > 0 {
      ShiftInjective(Shifts(a, k - 1), Shifts(b, k - 1));
      ShiftsInjective(a, b, k - 1);
    }
  }

  lemma {:induction false} ShiftsZero(k: nat)
    ensures Shifts(0, k) == 0
  {
    if k > 0 { ShiftsZero(k - 1); }
  }

  // ---- The table ----

  function Shift8(r: bv16): bv16 {
    Shift(Shift(Shift(Shift(Shift(Shift(Shift(Shift(r))))))))
  }

  function Entry(i: bv8): bv16 {
    Shift8((i as bv16) << 8)
  }

  ghost predicate RowCorrect(base: bv8, row: seq<bv16>)
    requires |row| == 16
  {
    && row[0] == Entry(base) && row[1] == Entry(base + 1) && row[2] == Entry(base + 2) && row[3] == Entry(base + 3)
    && row[4] == Entry(base + 4) && row[5] == Entry(base + 5) && row[6] == Entry(base + 6) && row[7] == Entry(base + 7)
    && row[8] == Entry(base + 8) && row[9] == Entry(base + 9) && row[10] == Entry(base + 10) && row[11] == Entry(base + 11)
    && row[12] == Entry(base + 12) && row[13] == Entry(base + 13) && row[14] == Entry(base + 14) && row[15] == Entry(base + 15)
  }

  lemma Rows0()
    ensures RowCorrect(0x00, ROW_0) && RowCorrect(0x10, ROW_1)
  {}

  lemma Rows2()
    ensures RowCorrect(0x20, ROW_2) && RowCorrect(0x30, ROW_3)
  {}

  lemma Rows4()
    ensures RowCorrect(0x40, ROW_4) && RowCorrect(0x50, ROW_5)
  {}

  lemma Rows6()
    ensures RowCorrect(0x60, ROW_6) && RowCorrect(0x70, ROW_7)
  {}

  lemma Rows8()
    ensures RowCorrect(0x80, ROW_8) && RowCorrect(0x90, ROW_9)
  {}

  lemma RowsA()
    ensures RowCorrect(0xA0, ROW_A) && RowCorrect(0xB0, ROW_B)
  {}

  lemma RowsC()
    ensures RowCorrect(0xC0, ROW_C) && RowCorrect(0xD0, ROW_D)
  {}

  lemma RowsE()
    ensures RowCorrect(0xE0, ROW_E) && RowCorrect(0xF0, ROW_F)
  {}

  lemma RowEntry(i: bv8, row: seq<bv16>)
    requires |row| == 16 && RowCorrect(i & 0xF0, row)
    ensures row[(i & 0xF) as int] == Entry(i)
  {}

  lemma RowCorrectLow(i: bv8)
    requires i < 0x80
    ensures RowCorrect(i & 0xF0, Row(i >> 4))
  {
    Rows0(); Rows2(); Rows4(); Rows6();
  }

  lemma RowCorrectHigh(i: bv8)
    requires i >= 0x80
    ensures RowCorrect(i & 0xF0, Row(i >> 4))
  {
    Rows8(); RowsA(); RowsC(); RowsE();
  }

  lemma Shift8IsShifts(i: bv16)
    ensures Shifts(i, 8) == Shift8(i)
  {
    assert Shifts(i, 1) == Shift(i);
    assert Shifts(i, 2) == Shift(Shift(i));
    assert Shifts(i, 3) == Shift(Shift(Shift(i)));
    assert Shifts(i, 4) == Shift(Shift(Shift(Shift(i))));
    assert Shifts(i, 5) == Shift(Shift(Shift(Shift(Shift(i)))));
    assert Shifts(i, 6) == Shift(Shift(Shift(Shift(Shift(Shift(i))))));
    assert Shifts(i, 7) == Shift(Shift(Shift(Shift(Shift(Shift(Shift(i)))))));
  }

  /** Every one of the 256 table entries is its index times x^16, modulo the generator. */
  lemma TableCorrect(i: bv8)
    ensures Table(i) == Mul((i as bv16) << 8)
  {
    if i < 0x80 { RowCorrectLow(i); } else { RowCorrectHigh(i); }
    RowEntry(i, Row(i >> 4));
    Shift8IsShifts((i as bv16) << 8);
  }

  method Lookup(i: bv8) returns (entry: bv16)
    ensures entry == Mul((i as bv16) << 8)
  {
    TableCorrect(i);
    entry := Table(i);
  }

  method Advance(crc: bv16, b: bv8) returns (next: bv16)
    ensures next == CODE.add(CODE.mulByte(crc), MulBytes(CODE, CODE.low(b), CODE.width))
  {
    var entry := Lookup(Index(crc, b));
    next := (crc << 8) ^ entry;
    Operations(crc << 8, Index(crc, b) as bv16 << 8);
    CodeStep(b, crc);
  }

  lemma Operations(a: bv16, b: bv16)
    ensures CODE.mulByte(b) == Mul(b)
    ensures CODE.add(a, CODE.mulByte(b)) == a ^ Mul(b)
  {}

  method CalcRaw(data: seq<bv8>) returns (crc: bv16)
    ensures crc == Checksum(data)
  {
    crc := INITIAL_VALUE;
    for i := 0 to |data|
      invariant crc == Register(CODE, INITIAL_VALUE, data[..i])
    {
      RegisterSnoc(CODE, INITIAL_VALUE, data[..i], data[i]);
      assert data[..i + 1] == data[..i] + [data[i]];
      crc := Advance(crc, data[i]);
    }
    assert data[..|data|] == data;
  }

  lemma MoveUp(a: bv16, next: bv16, k: nat)
    requires a < 0x8000 && next == a << 1
    ensures Shifts(a, k + 1) == Shifts(next, k)
  {
    ShiftsFront(a, k);
    assert Shift(a) == a << 1;
  }

  lemma {:induction false} ShiftsFront(a: bv16, k: nat)
    ensures Shifts(a, k + 1) == Shifts(Shift(a), k)
  {
    if k > 0 { ShiftsFront(a, k - 1); }
  }

  /** A byte moves up by x^8 without reduction. */
  lemma ByteMovesUp(a: bv16, k: nat)
    requires a < 0x100
    ensures Shifts(a, k + 8) == Shifts(a << 8, k)
  {
    MoveUp(a, a << 1, k + 7);
    MoveUp(a << 1, a << 2, k + 6);
    MoveUp(a << 2, a << 3, k + 5);
    MoveUp(a << 3, a << 4, k + 4);
    MoveUp(a << 4, a << 5, k + 3);
    MoveUp(a << 5, a << 6, k + 2);
    MoveUp(a << 6, a << 7, k + 1);
    MoveUp(a << 7, a << 8, k);
  }

  lemma CodeStep(b: bv8, reg: bv16)
    ensures CODE.add(CODE.mulByte(reg), MulBytes(CODE, CODE.low(b), CODE.width))
         == CODE.add(reg << 8, CODE.mulByte(Index(reg, b) as bv16 << 8))
  {
    Bytes(b, reg);
    LowMul(reg & 0xFF);
    LowMul(b as bv16);
    CodeLinear();
    AddCommutes();
    WordStep(CODE, reg & 0xFF00, reg & 0xFF, CODE.low(b));
  }

  lemma LowMul(a: bv16)
    requires a < 0x100
    ensures CODE.mulByte(a) == a << 8
  {
    ByteMovesUp(a, 0);
  }

  lemma AddCommutes()
    ensures forall a: bv16, b: bv16 {:trigger CODE.add(a, b)} :: CODE.add(a, b) == CODE.add(b, a)
  {
    forall a: bv16, b: bv16 ensures CODE.add(a, b) == CODE.add(b, a) { XorLaws(a, b, a); }
  }

  function Index(reg: bv16, b: bv8): bv8 {
    (reg >> 8) as bv8 ^ b
  }

  lemma Bytes(b: bv8, reg: bv16)
    ensures reg == CODE.add(reg & 0xFF00, reg & 0xFF)
    ensures reg << 8 == (reg & 0xFF) << 8
    ensures Index(reg, b) as bv16 << 8 == CODE.add(reg & 0xFF00, (b as bv16) << 8)
  {}

  lemma XorLaws(a: bv16, b: bv16, d: bv16)
    ensures a ^ b == b ^ a
    ensures (a ^ b) ^ d == a ^ (b ^ d)
    ensures a ^ 0 == a
  {}

  lemma XorCancel(a: bv16, b: bv16, d: bv16)
    ensures a ^ b == a ^ d ==> b == d
    ensures a ^ d == b ^ d ==> a == b
  {}

  // ---- What the checksum is and what it detects ----

  lemma MulOfSums()
    ensures forall a: bv16, b: bv16 {:trigger CODE.mulByte(CODE.add(a, b))} ::
      CODE.mulByte(CODE.add(a, b)) == CODE.add(CODE.mulByte(a), CODE.mulByte(b))
  {
    forall a: bv16, b: bv16
      ensures CODE.mulByte(CODE.add(a, b)) == CODE.add(CODE.mulByte(a), CODE.mulByte(b))
    {
      ShiftsLinear(a, b, BITS);
    }
  }

  lemma SumsRegroup()
    ensures forall a: bv16, b: bv16, d: bv16 {:trigger Triple(a, b, d)} ::
      Triple(a, b, d) ==> CODE.add(CODE.add(a, b), d) == CODE.add(a, CODE.add(b, d))
  {
    forall a: bv16, b: bv16, d: bv16
      ensures CODE.add(CODE.add(a, b), d) == CODE.add(a, CODE.add(b, d))
    {
      XorLaws(a, b, d);
    }
  }

  lemma ZeroIsNeutral()
    ensures forall a: bv16 :: CODE.add(a, CODE.zero) == a
  {
    forall a: bv16 ensures CODE.add(a, CODE.zero) == a { XorLaws(a, a, a); }
  }

  lemma CodeLinear()
    ensures Linear(CODE)
  {
    ShiftsZero(BITS);
    MulOfSums();
    SumsRegroup();
    ZeroIsNeutral();
  }

  lemma CodeLossless()
    ensures Lossless(CODE)
  {
    forall a: bv16, b: bv16, d: bv16
      ensures CODE.add(a, b) == CODE.add(a, d) ==> b == d
      ensures CODE.add(a, d) == CODE.add(b, d) ==> a == b
    {
      XorCancel(a, b, d);
    }
    forall a: bv16, b: bv16 ensures CODE.mulByte(a) == CODE.mulByte(b) ==> a == b {
      if Mul(a) == Mul(b) { ShiftsInjective(a, b, BITS); }
    }
  }

  const WORD_BITS: nat := 16

  function TopBitWord(r: bv16): nat {
    if r >= 0x8000 then 1 else 0
  }

  /** The number of one bits among the k highest of r. */
  function TopOnesWord(r: bv16, k: nat): nat
    decreases k
  {
    if k == 0 then 0 else TopBitWord(r) + TopOnesWord(r << 1, k - 1)
  }

  predicate OddTopWord(r: bv16, k: nat) {
    TopOnesWord(r, k) % 2 == 1
  }

  predicate OddWord(r: bv16) {
    OddTopWord(r, WORD_BITS)
  }

  lemma TopBitLinearWord(a: bv16, b: bv16)
    ensures TopBitWord(a ^ b) % 2 == (TopBitWord(a) + TopBitWord(b)) % 2
  {}

  lemma ShiftOfSumWord(a: bv16, b: bv16, k: nat)
    ensures TopOnesWord((a ^ b) << 1, k) == TopOnesWord((a << 1) ^ (b << 1), k)
  {
    assert (a ^ b) << 1 == (a << 1) ^ (b << 1);
  }

  lemma TopOnesStepWord(a: bv16, b: bv16, d: bv16, k: nat, rest: nat)
    requires TopBitWord(d) % 2 == (TopBitWord(a) + TopBitWord(b)) % 2
    requires rest % 2 == (TopOnesWord(a << 1, k) + TopOnesWord(b << 1, k)) % 2
    requires TopOnesWord(d << 1, k) == rest
    ensures TopOnesWord(d, k + 1) % 2 == (TopOnesWord(a, k + 1) + TopOnesWord(b, k + 1)) % 2
  {
    SumParity(TopBitWord(a), TopBitWord(b), TopBitWord(d), TopOnesWord(a << 1, k), TopOnesWord(b << 1, k), rest);
  }

  lemma TopOnesOfSumWord(a: bv16, b: bv16, d: bv16, k: nat)
    requires d == a ^ b
    requires TopOnesWord((a << 1) ^ (b << 1), k) % 2 == (TopOnesWord(a << 1, k) + TopOnesWord(b << 1, k)) % 2
    ensures TopOnesWord(d, k + 1) % 2 == (TopOnesWord(a, k + 1) + TopOnesWord(b, k + 1)) % 2
  {
    ShiftOfSumWord(a, b, k);
    TopBitLinearWord(a, b);
    TopOnesStepWord(a, b, d, k, TopOnesWord((a << 1) ^ (b << 1), k));
  }

  lemma {:induction false} TopOnesLinearWord(a: bv16, b: bv16, k: nat)
    ensures TopOnesWord(a ^ b, k) % 2 == (TopOnesWord(a, k) + TopOnesWord(b, k)) % 2
    decreases k
  {
    if k > 0 {
      TopOnesLinearWord(a << 1, b << 1, k - 1);
      TopOnesOfSumWord(a, b, a ^ b, k - 1);
    }
  }

  lemma OddTopLinearWord(a: bv16, b: bv16, k: nat)
    ensures OddTopWord(a ^ b, k) == (OddTopWord(a, k) != OddTopWord(b, k))
  {
    TopOnesLinearWord(a, b, k);
  }

  lemma OddLinearWord(a: bv16, b: bv16)
    ensures OddWord(a ^ b) == (OddWord(a) != OddWord(b))
  {
    OddTopLinearWord(a, b, WORD_BITS);
  }

  lemma {:induction false} TrailingZeroWord(r: bv16, j: nat)
    requires j <= 16 && r << j == 0
    ensures TopOnesWord(r, j + 1) == TopOnesWord(r, j)
    decreases j
  {
    if j > 0 {
      assert (r << 1) << (j - 1) == r << j;
      TrailingZeroWord(r << 1, j - 1);
    }
  }

  lemma OddTopShiftWord(r: bv16, j: nat)
    requires j < 16 && (r << 1) << j == 0
    ensures OddTopWord(r << 1, j + 1) == (OddTopWord(r, j + 1) != (r >= 0x8000))
  {
    TrailingZeroWord(r << 1, j);
  }

  /** Shifting left by one drops exactly the top bit from the count. */
  lemma OddShiftWord(r: bv16)
    ensures OddWord(r << 1) == (OddWord(r) != (r >= 0x8000))
  {
    assert (r << 1) << 15 == 0;
    OddTopShiftWord(r, 15);
  }

  /** A byte in the upper half has the ones of that byte. */
  lemma {:induction false} UpperHalf(b: bv8, k: nat)
    ensures TopOnesWord((b as bv16) << 8, k) == TopOnes(b, k)
    decreases k
  {
    if k > 0 {
      assert ((b as bv16) << 8) << 1 == ((b << 1) as bv16) << 8;
      assert (b as bv16) << 8 >= 0x8000 <==> b >= 0x80;
      UpperHalf(b << 1, k - 1);
    }
  }

  lemma SkipZero(r: bv16, next: bv16, k: nat)
    requires r < 0x8000 && next == r << 1
    ensures TopOnesWord(r, k + 1) == TopOnesWord(next, k)
  {}

  /** The upper half of a register that holds only a byte contributes no ones. */
  lemma SkipUpperHalf(r: bv16, k: nat)
    requires r < 0x100
    ensures TopOnesWord(r, k + 8) == TopOnesWord(r << 8, k)
  {
    SkipZero(r, r << 1, k + 7);
    SkipZero(r << 1, r << 2, k + 6);
    SkipZero(r << 2, r << 3, k + 5);
    SkipZero(r << 3, r << 4, k + 4);
    SkipZero(r << 4, r << 5, k + 3);
    SkipZero(r << 5, r << 6, k + 2);
    SkipZero(r << 6, r << 7, k + 1);
    SkipZero(r << 7, r << 8, k);
  }

  lemma OnesLow(x: bv8, k: nat)
    ensures TopOnesWord(Low(x), k + 8) == TopOnes(x, k)
  {
    SkipUpperHalf(Low(x), k);
    UpperHalf(x, k);
  }

  lemma OddLow(x: bv8)
    ensures OddWord(Low(x)) == Odd(x)
  {
    OnesLow(x, BITS);
  }

  lemma ShiftByCase(a: bv16)
    ensures Shift(a) == (a << 1) ^ (if a >= 0x8000 then 0x1021 else 0x0000)
  {
    var c := a >> 15;
    assert c == if a >= 0x8000 then 1 else 0;
    CarrySum(a << 1, c);
  }

  lemma CarrySum(s: bv16, c: bv16)
    requires c <= 1
    ensures s ^ c ^ (c << 5) ^ (c << 12) == s ^ (if c == 1 then 0x1021 else 0x0000)
  {}

  lemma {:induction false} NoOnesWord(k: nat)
    ensures TopOnesWord(0, k) == 0
  {
    if k > 0 { NoOnesWord(k - 1); }
  }

  lemma OddCarry()
    ensures OddWord(0x1021) && !OddWord(0)
  {
    NoOnesWord(WORD_BITS);
    assert TopOnesWord(0x8000, 1) == 1;
    assert TopOnesWord(0x4000, 2) == 1;
    assert TopOnesWord(0x8400, 6) == 2;
    assert TopOnesWord(0x0840, 10) == 2;
    assert TopOnesWord(0x8108, 13) == 3;
  }

  /** The generator has an even number of terms. */
  lemma ShiftKeepsParity(a: bv16)
    ensures OddWord(Shift(a)) == OddWord(a)
  {
    var carried: bv16 := if a >= 0x8000 then 0x1021 else 0x0000;
    ShiftByCase(a);
    OddLinearWord(a << 1, carried);
    OddShiftWord(a);
    OddCarry();
  }

  lemma {:induction false} ShiftsKeepParity(a: bv16, k: nat)
    ensures OddWord(Shifts(a, k)) == OddWord(a)
  {
    if k > 0 {
      ShiftsKeepParity(a, k - 1);
      ShiftKeepsParity(Shifts(a, k - 1));
    }
  }

  lemma ByteFlips(x: bv8, y: bv8)
    ensures (OddWord(CODE.low(x)) != OddWord(CODE.low(y))) == (Difference(x, y) % 2 == 1)
  {
    OddLow(x);
    OddLow(y);
    OddLinear(x, y);
  }

  lemma CodeKeepsParity()
    ensures KeepsParity(CODE, OddWord, Difference)
  {
    forall a: bv16, b: bv16 ensures OddWord(CODE.add(a, b)) == (OddWord(a) != OddWord(b)) { OddLinearWord(a, b); }
    forall a: bv16 ensures OddWord(CODE.mulByte(a)) == OddWord(a) { ShiftsKeepParity(a, BITS); }
    forall x: bv8, y: bv8
      ensures (OddWord(CODE.low(x)) != OddWord(CODE.low(y))) == (Difference(x, y) % 2 == 1)
    {
      ByteFlips(x, y);
    }
  }

  /** The checksum is the remainder of the message times x^16, plus the initial value times x^(8 * length). */
  lemma ChecksumIsRemainder(data: seq<bv8>)
    ensures Checksum(data) == MulBytes(CODE, INITIAL_VALUE, |data|) ^ Remainder(CODE, data + ZeroBytes(2))
  {
    CodeLinear();
    RegisterIsRemainder(CODE, INITIAL_VALUE, data);
  }

  /** A message with one corrupted byte never keeps its checksum. */
  lemma SingleByteErrorDetected(a: seq<bv8>, b: seq<bv8>, k: nat)
    requires DifferOnlyAt(a, b, k)
    ensures Checksum(a) != Checksum(b)
  {
    CodeLossless();
    RegisterSeparates(CODE, INITIAL_VALUE, a, b, k);
  }

  /** An odd number of flipped bits, anywhere in the message, changes the checksum. */
  lemma OddErrorDetected(a: seq<bv8>, b: seq<bv8>)
    requires |a| == |b| && FlippedBits(Difference, a, b) % 2 == 1
    ensures Checksum(a) != Checksum(b)
  {
    CodeKeepsParity();
    ParityFollowsFlips(CODE, OddWord, Difference, INITIAL_VALUE, a, b);
  }
}
