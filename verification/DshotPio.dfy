/** The program that transmits DShot frames to a thruster, and the frames it is given. */
module DshotPio {
  import opened Common
  import opened Pio

  const BITS: nat := 16

  const FORCE_READ: nat := 1
  const WRAP_TARGET: nat := 3
  const WRITE_DATA: nat := 4
  const TX_LOOP: nat := 6
  const RESET: nat := 10
  const FRAME_RESET: nat := 11

  function Plain(op: Op, delay: nat): Instr {
    Instr(op, None, delay)
  }

  function Prog(): (p: Program)
    ensures Closed(p) && |p.code| == 15
  {
    Program([
        Plain(SetPinDirs(1), 0),
        Plain(Pull(true), 0), Plain(Jmp(WRITE_DATA), 0),
        Plain(Pull(false), 0),
        Plain(MovXOsr, 0), Plain(SetY(15), 0),
        Plain(SetPins(1), 2), Plain(OutPins, 2), Plain(SetPins(0), 0), Plain(JmpYDec(TX_LOOP), 0),
        Plain(SetY(5), 0),
        Plain(Nop, 31), Plain(JmpYDec(FRAME_RESET), 0),
        Plain(MovYOsr, 0), Plain(JmpNotY(FORCE_READ), 0)],
      WRAP_TARGET, 14)
  }

  // ---- The wave ----

  function TopBit(w: nat): nat { w / 0x8000_0000 }

  function Shifted(w: nat): (r: nat)
    ensures r < WORD
  {
    w * 2 % WORD
  }

  /** A bit: three cycles high, three at its value, two low. */
  function BitWave(b: nat): (t: seq<nat>)
    ensures |t| == 8
  {
    Level(1, 3) + Level(b, 3) + Level(0, 2)
  }

  function FrameWave(w: nat, bits: nat): (t: seq<nat>)
    ensures |t| == 8 * bits
    decreases bits
  {
    if bits == 0 then [] else BitWave(TopBit(w)) + FrameWave(Shifted(w), bits - 1)
  }

  function ShiftedBy(w: nat, bits: nat): nat
    decreases bits
  {
    if bits == 0 then w else ShiftedBy(Shifted(w), bits - 1)
  }

  lemma BitRises(s: Sm)
    requires s.pc == TX_LOOP
    ensures Run(Prog(), s, 2) == s.(pc := TX_LOOP + 2, osr := Shifted(s.osr), pins := TopBit(s.osr),
                                    trace := s.trace + Level(1, 3) + Level(TopBit(s.osr), 3))
  {
    RunTwo(Prog(), s);
  }

  lemma BitFalls(s: Sm)
    requires s.pc == TX_LOOP + 2
    ensures Run(Prog(), s, 2) == s.(pc := if s.y != 0 then TX_LOOP else RESET, y := Dec(s.y), pins := 0,
                                    trace := s.trace + Level(0, 1) + Level(0, 1))
  {
    RunTwo(Prog(), s);
  }

  lemma BitLevels(before: seq<nat>, b: nat)
    ensures before + Level(1, 3) + Level(b, 3) + Level(0, 1) + Level(0, 1) == before + BitWave(b)
  {
    LevelSum(0, 1, 1);
  }

  lemma OneBit(s: Sm) returns (n: nat)
    requires s.pc == TX_LOOP
    ensures n == 4
    ensures Run(Prog(), s, n) == s.(pc := if s.y != 0 then TX_LOOP else RESET, y := Dec(s.y), osr := Shifted(s.osr), pins := 0,
                                    trace := s.trace + BitWave(TopBit(s.osr)))
  {
    var two := 2;
    BitRises(s);
    BitFalls(Run(Prog(), s, two));
    RunSplit(Prog(), s, two, two);
    BitLevels(s.trace, TopBit(s.osr));
    n := two + two;
  }

  lemma FrontBit(w: nat, bits: nat, before: seq<nat>)
    ensures before + FrameWave(w, bits + 1) == before + BitWave(TopBit(w)) + FrameWave(Shifted(w), bits)
    ensures ShiftedBy(w, bits + 1) == ShiftedBy(Shifted(w), bits)
  {
    Regroup(before, BitWave(TopBit(w)), FrameWave(Shifted(w), bits));
  }

  /** The loop sends as many bits as its counter says, plus one. */
  lemma {:induction false} AllBits(s: Sm) returns (n: nat)
    requires s.pc == TX_LOOP
    ensures n == 4 * (s.y + 1)
    ensures Run(Prog(), s, n)
      == s.(pc := RESET, y := WORD - 1, osr := ShiftedBy(s.osr, s.y + 1), pins := 0, trace := s.trace + FrameWave(s.osr, s.y + 1))
    decreases s.y
  {
    n := OneBit(s);
    FrontBit(s.osr, s.y, s.trace);
    if s.y == 0 {
      assert s.trace + BitWave(TopBit(s.osr)) + [] == s.trace + BitWave(TopBit(s.osr));
    } else {
      var m := AllBits(Run(Prog(), s, n));
      RunSplit(Prog(), s, n, m);
      n := n + m;
    }
  }

  lemma NopStep(s: Sm)
    requires s.pc == FRAME_RESET
    ensures Step(Prog(), s) == s.(pc := FRAME_RESET + 1, trace := s.trace + Level(s.pins, 32))
  {}

  lemma ResetJump(s: Sm)
    requires s.pc == FRAME_RESET + 1
    ensures Step(Prog(), s) == s.(pc := if s.y != 0 then FRAME_RESET else 13, y := Dec(s.y), trace := s.trace + Level(s.pins, 1))
  {}

  lemma ResetRound(s: Sm)
    requires s.pc == FRAME_RESET && s.pins == 0
    ensures Run(Prog(), s, 2) == s.(pc := if s.y != 0 then FRAME_RESET else 13, y := Dec(s.y), trace := s.trace + Level(0, 33))
  {
    NopStep(s);
    ResetJump(Step(Prog(), s));
    RunTwo(Prog(), s);
    Regroup(s.trace, Level(0, 32), Level(0, 1));
    LevelSum(0, 32, 1);
  }

  lemma {:induction false} ResetRuns(s: Sm) returns (n: nat)
    requires s.pc == FRAME_RESET && s.pins == 0
    ensures n == 2 * (s.y + 1)
    ensures Run(Prog(), s, n) == s.(pc := 13, y := WORD - 1, trace := s.trace + Level(0, 33 * (s.y + 1)))
    decreases s.y
  {
    n := 2;
    ResetRound(s);
    if s.y != 0 {
      var t := Run(Prog(), s, n);
      var m := ResetRuns(t);
      RunSplit(Prog(), s, n, m);
      Regroup(s.trace, Level(0, 33), Level(0, 33 * s.y));
      LevelSum(0, 33, 33 * s.y);
      n := n + m;
    }
  }

  // ---- One frame ----

  const FRAME_STEPS: nat := 81
  const GAP: nat := 201               // low cycles after the last bit

  lemma FrameStarts(s: Sm)
    requires s.pc == WRITE_DATA && s.pins == 0
    ensures Run(Prog(), s, 2) == s.(pc := TX_LOOP, x := s.osr, y := 15, trace := s.trace + Level(0, 1) + Level(0, 1))
  {
    RunTwo(Prog(), s);
  }

  lemma ResetStarts(s: Sm)
    requires s.pc == RESET && s.pins == 0
    ensures Run(Prog(), s, 1) == s.(pc := FRAME_RESET, y := 5, trace := s.trace + Level(0, 1))
  {
    RunOne(Prog(), s);
  }

  lemma FrameEnds(s: Sm)
    requires s.pc == 13 && s.pins == 0
    ensures Run(Prog(), s, 2) == s.(pc := if s.osr == 0 then FORCE_READ else WRAP_TARGET, y := s.osr,
                                    trace := s.trace + Level(0, 1) + Level(0, 1))
  {
    RunTwo(Prog(), s);
  }

  /** After the bits: the reset delay, and the decision whether to go on by itself. */
  lemma FrameGap(s: Sm) returns (n: nat)
    requires s.pc == RESET && s.pins == 0
    ensures n == 15
    ensures Run(Prog(), s, n)
      == s.(pc := if s.osr == 0 then FORCE_READ else WRAP_TARGET, y := s.osr, trace := s.trace + Level(0, GAP))
  {
    n := 1;
    ResetStarts(s);
    var s1 := Run(Prog(), s, n);
    var m := ResetRuns(s1);
    var two := 2;
    RunSplit(Prog(), s, n, m);
    FrameEnds(Run(Prog(), s1, m));
    RunSplit(Prog(), s, n + m, two);
    GapLevels(s.trace);
    n := n + m + two;
  }

  lemma GapLevels(before: seq<nat>)
    ensures before + Level(0, 1) + Level(0, 198) + Level(0, 1) + Level(0, 1) == before + Level(0, GAP)
  {
    LevelSum(0, 1, 1);
    Regroup(before + Level(0, 1) + Level(0, 198), Level(0, 1), Level(0, 1));
    LevelSum(0, 198, 2);
    Regroup(before + Level(0, 1), Level(0, 198), Level(0, 2));
    LevelSum(0, 1, 200);
    Regroup(before, Level(0, 1), Level(0, 200));
  }

  function Frame(w: nat): seq<nat> {
    Level(0, 2) + FrameWave(w, BITS) + Level(0, GAP)
  }

  lemma BitsRun(s: Sm) returns (n: nat)
    requires s.pc == WRITE_DATA && s.pins == 0
    ensures n == 66
    ensures Run(Prog(), s, n) == s.(pc := RESET, x := s.osr, y := WORD - 1, osr := ShiftedBy(s.osr, BITS), pins := 0,
                                    trace := s.trace + Level(0, 1) + Level(0, 1) + FrameWave(s.osr, BITS))
  {
    n := 2;
    FrameStarts(s);
    var m := AllBits(Run(Prog(), s, n));
    RunSplit(Prog(), s, n, m);
    n := n + m;
  }

  /** One pass over the word in the shift register: its sixteen top bits, then the gap. */
  lemma FrameRuns(s: Sm) returns (n: nat)
    requires s.pc == WRITE_DATA && s.pins == 0
    ensures n == FRAME_STEPS
    ensures var t := Run(Prog(), s, n);
      && t.pc == (if ShiftedBy(s.osr, BITS) == 0 then FORCE_READ else WRAP_TARGET)
      && t.x == s.osr && t.fifo == s.fifo && t.pins == 0 && t.trace == s.trace + Frame(s.osr)
  {
    n := BitsRun(s);
    var m := FrameGap(Run(Prog(), s, n));
    RunSplit(Prog(), s, n, m);
    FrameLevels(s.trace, s.osr);
    n := n + m;
  }

  lemma FrameLevels(before: seq<nat>, w: nat)
    ensures before + Level(0, 1) + Level(0, 1) + FrameWave(w, BITS) + Level(0, GAP) == before + Frame(w)
  {
    LevelSum(0, 1, 1);
    Regroup(before, Level(0, 1), Level(0, 1));
    Regroup(before, Level(0, 2), FrameWave(w, BITS));
    Regroup(before, Level(0, 2) + FrameWave(w, BITS), Level(0, GAP));
  }

  // ---- Which word comes next ----

  /** With the repeat flag set, the next frame is a queued word if there is one, else the same word again. */
  lemma Repeats(s: Sm)
    requires s.pc == WRAP_TARGET && s.pins == 0
    ensures var t := Run(Prog(), s, 1);
      && t.pc == WRITE_DATA && t.pins == 0 && t.trace == s.trace + Level(0, 1)
      && t.osr == (if s.fifo == [] then s.x else s.fifo[0]) && t.fifo == (if s.fifo == [] then [] else s.fifo[1..])
  {
    RunOne(Prog(), s);
  }

  /** Without it, the line stays low until a word is queued. */
  lemma WaitsForWord(s: Sm)
    requires s.pc == FORCE_READ && s.pins == 0
    ensures s.fifo == [] ==> Run(Prog(), s, 1) == s.(trace := s.trace + Level(0, 1))
    ensures s.fifo != [] ==>
      var t := Run(Prog(), s, 2);
      && t.pc == WRITE_DATA && t.pins == 0 && t.trace == s.trace + Level(0, 1) + Level(0, 1)
      && t.osr == s.fifo[0] && t.fifo == s.fifo[1..]
  {
    if s.fifo == [] { RunOne(Prog(), s); } else { RunTwo(Prog(), s); }
  }

  function Repeated(w: nat, n: nat): seq<nat> {
    if n == 0 then [] else Repeated(w, n - 1) + (Frame(w) + Level(0, 1))
  }

  lemma SentOnceMore(s: Sm) returns (n: nat)
    requires s.pc == WRITE_DATA && s.pins == 0 && s.fifo == [] && ShiftedBy(s.osr, BITS) != 0
    ensures n == FRAME_STEPS + 1
    ensures var t := Run(Prog(), s, n);
      t.pc == WRITE_DATA && t.pins == 0 && t.fifo == [] && t.osr == s.osr && t.trace == s.trace + (Frame(s.osr) + Level(0, 1))
  {
    n := FrameRuns(s);
    var one := 1;
    Repeats(Run(Prog(), s, n));
    RunSplit(Prog(), s, n, one);
    Regroup(s.trace, Frame(s.osr), Level(0, 1));
    n := n + one;
  }

  /** A word with the flag is sent over and over while no other word is queued. */
  lemma {:induction false} SentUntilReplaced(s: Sm, times: nat) returns (n: nat)
    requires s.pc == WRITE_DATA && s.pins == 0 && s.fifo == [] && ShiftedBy(s.osr, BITS) != 0
    ensures n == (FRAME_STEPS + 1) * times
    ensures var t := Run(Prog(), s, n);
      t.pc == WRITE_DATA && t.pins == 0 && t.fifo == [] && t.osr == s.osr && t.trace == s.trace + Repeated(s.osr, times)
    decreases times
  {
    if times == 0 {
      n := 0;
      assert s.trace + [] == s.trace;
    } else {
      n := SentUntilReplaced(s, times - 1);
      var m := SentOnceMore(Run(Prog(), s, n));
      RunSplit(Prog(), s, n, m);
      Regroup(s.trace, Repeated(s.osr, times - 1), Frame(s.osr) + Level(0, 1));
      n := n + m;
    }
  }

  // ---- Decoding ----

  /** A receiver samples each bit in the middle of its eight cycles, most significant bit first. */
  function Decode(wave: seq<nat>, bits: nat): nat
    requires |wave| == 8 * bits
    decreases bits
  {
    if bits == 0 then 0 else Decode(wave[..8 * (bits - 1)], bits - 1) * 2 + wave[8 * (bits - 1) + 4]
  }

  function Doubled(w: nat, n: nat): nat
    decreases n
  {
    if n == 0 then w else 2 * Doubled(w, n - 1)
  }

  lemma {:induction false} LastBit(w: nat, bits: nat)
    ensures FrameWave(w, bits + 1) == FrameWave(w, bits) + BitWave(TopBit(ShiftedBy(w, bits)))
    ensures ShiftedBy(w, bits + 1) == Shifted(ShiftedBy(w, bits))
    decreases bits
  {
    if bits == 0 {
      assert FrameWave(w, 1) == BitWave(TopBit(w)) + FrameWave(Shifted(w), 0) == BitWave(TopBit(w));
    } else {
      LastBit(Shifted(w), bits - 1);
      Regroup(BitWave(TopBit(w)), FrameWave(Shifted(w), bits - 1), BitWave(TopBit(ShiftedBy(w, bits))));
    }
  }

  lemma DecodeLast(wave: seq<nat>, bits: nat, b: nat)
    requires |wave| == 8 * bits
    ensures Decode(wave + BitWave(b), bits + 1) == Decode(wave, bits) * 2 + b
  {
    assert (wave + BitWave(b))[..8 * bits] == wave;
    assert (wave + BitWave(b))[8 * bits + 4] == BitWave(b)[4];
  }

  lemma {:induction false} DecodeAll(w: nat, bits: nat)
    requires w < WORD
    ensures ShiftedBy(w, bits) < WORD && Doubled(w, bits) == Decode(FrameWave(w, bits), bits) * WORD + ShiftedBy(w, bits)
    decreases bits
  {
    if bits > 0 {
      DecodeAll(w, bits - 1);
      LastBit(w, bits - 1);
      DecodeLast(FrameWave(w, bits - 1), bits - 1, TopBit(ShiftedBy(w, bits - 1)));
      Carry(Decode(FrameWave(w, bits - 1), bits - 1), ShiftedBy(w, bits - 1));
    }
  }

  lemma Carry(d: nat, s: nat)
    requires s < WORD
    ensures 2 * (d * WORD + s) == (d * 2 + TopBit(s)) * WORD + Shifted(s)
  {
    assert 2 * s == TopBit(s) * 0x1_0000_0000 + Shifted(s);
  }

  lemma DoubledSixteenTimes(w: nat)
    ensures Doubled(w, BITS) == 0x1_0000 * w
  {
    assert Doubled(w, 4) == 16 * w;
    assert Doubled(w, 8) == 256 * w;
    assert Doubled(w, 12) == 4096 * w;
  }

  lemma Quotient(d: nat, s: nat, w: nat)
    requires 0x1_0000 * w == d * 0x1_0000_0000 + s && s < 0x1_0000_0000
    ensures d == w / 0x1_0000 && s == w % 0x1_0000 * 0x1_0000
  {}

  /** The receiver gets the sixteen top bits of the word, and what is left decides about repeating. */
  lemma DecodeFrame(w: nat)
    requires w < WORD
    ensures Decode(FrameWave(w, BITS), BITS) == w / 0x1_0000
    ensures ShiftedBy(w, BITS) != 0 <==> w % 0x1_0000 != 0
  {
    DecodeAll(w, BITS);
    DoubledSixteenTimes(w);
    Quotient(Decode(FrameWave(w, BITS), BITS), ShiftedBy(w, BITS), w);
  }

  // ---- Frames ----

  /** Throttle, telemetry bit and check nibble, packed as dshot_send_internal does. */
  function Packet(throttle: bv16, telemetry: bool): bv16 {
    var cmd := ((throttle & 0x7FF) << 1) | (if telemetry then 1 else 0);
    var check := (cmd ^ (cmd >> 4) ^ (cmd >> 8)) & 0x0F;
    (cmd << 4) | check
  }

  function Value(p: bv16): (v: nat)
    ensures v < 0x1_0000
  {
    p as nat
  }

  /** The word for the queue: the packet on top, the repeat flag in bit 15. */
  function Word(packet: nat, sendOnce: bool): (w: nat)
    requires packet < 0x1_0000
    ensures w < WORD
  {
    packet * 0x1_0000 + if sendOnce then 0 else 0x8000
  }

  method PackCommand(throttle: bv16, telemetry: bool) returns (cmd: bv16)
    ensures cmd == Packet(throttle, telemetry)
  {
    cmd := (throttle & 0x7FF) << 1;
    if telemetry {
      cmd := cmd | 1;
    }
    var check := (cmd ^ (cmd >> 4) ^ (cmd >> 8)) & 0x0F;
    cmd := cmd << 4;
    cmd := cmd | check;
  }

  /** dshot_send_internal: builds the command step by step and puts it into the queue of the state machine. */
  method SendInternal(throttle: bv16, telemetry: bool, sendOnce: bool, fifo: seq<nat>) returns (queued: seq<nat>)
    ensures queued == fifo + [Word(Value(Packet(throttle, telemetry)), sendOnce)]
  {
    var cmd := PackCommand(throttle, telemetry);
    var word := Value(cmd) * 0x1_0000;
    if !sendOnce {
      word := word + 0x8000;
    }
    queued := fifo + [word];
  }

  /** What a receiver makes of a packet; the check nibble must be the exclusive or of the others. */
  function ThrottleOf(p: bv16): bv16 { p >> 5 }

  predicate TelemetryOf(p: bv16) { (p >> 4) & 1 == 1 }

  predicate Checks(p: bv16) {
    (p & 0xF) == ((p >> 4) & 0xF) ^ ((p >> 8) & 0xF) ^ ((p >> 12) & 0xF)
  }

  lemma PacketDecodes(throttle: bv16, telemetry: bool)
    requires throttle <= 0x7FF
    ensures var p := Packet(throttle, telemetry);
      ThrottleOf(p) == throttle && TelemetryOf(p) == telemetry && Checks(p)
  {}

  lemma WordSplits(packet: nat, sendOnce: bool)
    requires packet < 0x1_0000
    ensures Word(packet, sendOnce) / 0x1_0000 == packet && (Word(packet, sendOnce) % 0x1_0000 != 0 <==> !sendOnce)
  {}

  /**
   * From call to wire: the wave of the word decodes to a packet with the throttle, the
   * telemetry bit and a matching check nibble, and it is repeated unless it was to be sent once.
   */
  lemma FrameDecodes(throttle: bv16, telemetry: bool, sendOnce: bool, packet: bv16)
    requires throttle <= 0x7FF && packet == Packet(throttle, telemetry)
    ensures ThrottleOf(packet) == throttle && TelemetryOf(packet) == telemetry && Checks(packet)
    ensures var w := Word(Value(packet), sendOnce);
      Decode(FrameWave(w, BITS), BITS) == Value(packet) && (ShiftedBy(w, BITS) != 0 <==> !sendOnce)
  {
    PacketDecodes(throttle, telemetry);
    WordSplits(Value(packet), sendOnce);
    DecodeFrame(Word(Value(packet), sendOnce));
  }
}
