/** The program that drives the three torpedo coils, one after the other. It runs at 1 MHz: a cycle is a microsecond. */
module TorpedoPio {
  import opened Common
  import opened Pio
  import Spec = ActuatorBoardSpec

  const OFF: nat := 0x7      // 0b111: no coil is driven
  const COIL1: nat := 0x6    // 0b110
  const COIL2: nat := 0x5    // 0b101
  const COIL3: nat := 0x3    // 0b011

  /** Fetches a time, then counts it down. */
  function Burst(at: nat, level: nat): seq<Instr> {
    [Instr(Pull(true), Some(OFF), 0), Instr(MovXOsr, Some(level), 0), Instr(JmpXDec(at + 2), Some(level), 0)]
  }

  function Code(): (code: seq<Instr>)
    ensures |code| == 17
  {
    Burst(0, COIL1) + Burst(3, OFF) + Burst(6, COIL2) + Burst(9, OFF) + Burst(12, COIL3)
    + [Instr(Irq, Some(OFF), 0), Instr(Jmp(16), Some(OFF), 0)]
  }

  function Prog(): (p: Program)
    ensures Closed(p)
  {
    Program(Code(), 0, 16)
  }

  predicate IsBurst(p: Program, at: nat, level: nat) {
    && at + 3 < |p.code| && p.wrap > at + 2
    && p.code[at..at + 3] == Burst(at, level)
  }

  /** The levels of the bursts of the program. */
  function LevelOf(k: nat): nat {
    match k case 0 => COIL1 case 2 => COIL2 case 4 => COIL3 case _ => OFF
  }

  /** Five bursts, then the interrupt and an endless loop. */
  predicate FiveBursts(p: Program) {
    && |p.code| == 17 && p.wrap == 16
    && (forall k :: 0 <= k < 5 ==> IsBurst(p, 3 * k, LevelOf(k)))
    && p.code[15] == Instr(Irq, Some(OFF), 0) && p.code[16] == Instr(Jmp(16), Some(OFF), 0)
  }

  lemma ProgHasFiveBursts()
    ensures FiveBursts(Prog())
  {
    var code := Code();
    assert code[0..3] == Burst(0, COIL1) && code[3..6] == Burst(3, OFF) && code[6..9] == Burst(6, COIL2);
    assert code[9..12] == Burst(9, OFF) && code[12..15] == Burst(12, COIL3);
  }

  lemma BurstCode(p: Program, at: nat, level: nat)
    requires IsBurst(p, at, level)
    ensures p.code[at] == Instr(Pull(true), Some(OFF), 0)
    ensures p.code[at + 1] == Instr(MovXOsr, Some(level), 0)
    ensures p.code[at + 2] == Instr(JmpXDec(at + 2), Some(level), 0)
  {
    var b := p.code[at..at + 3];
    assert b[0] == p.code[at] && b[1] == p.code[at + 1] && b[2] == p.code[at + 2];
  }

  /** The countdown takes one cycle more than the value it starts from. */
  lemma {:induction false} Countdown(p: Program, s: Sm, at: nat, level: nat)
    requires Closed(p) && at + 2 < |p.code| && at + 2 != p.wrap && p.code[at + 2] == Instr(JmpXDec(at + 2), Some(level), 0)
    requires s.pc == at + 2
    ensures Run(p, s, s.x + 1)
      == s.(pc := at + 3, x := WORD - 1, pins := level, trace := s.trace + Level(level, s.x + 1))
    decreases s.x
  {
    var t := Step(p, s);
    if s.x == 0 {
      RunOne(p, s);
    } else {
      Countdown(p, t, at, level);
      Regroup(s.trace, Level(level, 1), Level(level, s.x));
      LevelSum(level, 1, s.x);
    }
  }

  lemma Fetch(p: Program, s: Sm, at: nat, level: nat)
    requires Closed(p) && IsBurst(p, at, level) && s.pc == at && s.fifo != []
    ensures Step(p, s) == s.(pc := at + 1, osr := s.fifo[0], fifo := s.fifo[1..], pins := OFF, trace := s.trace + Level(OFF, 1))
  {
    BurstCode(p, at, level);
  }

  lemma Load(p: Program, s: Sm, at: nat, level: nat)
    requires Closed(p) && IsBurst(p, at, level) && s.pc == at + 1
    ensures Step(p, s) == s.(pc := at + 2, x := s.osr, pins := level, trace := s.trace + Level(level, 1))
  {
    BurstCode(p, at, level);
  }

  /** The first two instructions of a burst. */
  lemma BurstStarts(p: Program, s: Sm, at: nat, level: nat) returns (n: nat)
    requires Closed(p) && IsBurst(p, at, level) && s.pc == at && s.fifo != []
    ensures n == 2
    ensures Run(p, s, n) == s.(pc := at + 2, x := s.fifo[0], osr := s.fifo[0], fifo := s.fifo[1..], pins := level,
                               trace := s.trace + Level(OFF, 1) + Level(level, 1))
  {
    n := 2;
    Fetch(p, s, at, level);
    Load(p, Step(p, s), at, level);
    RunTwo(p, s);
  }

  /** A burst: one cycle off, then two cycles more than the fetched value at the level. */
  lemma BurstRuns(p: Program, s: Sm, at: nat, level: nat)
    requires Closed(p) && IsBurst(p, at, level) && s.pc == at && s.fifo != []
    ensures Run(p, s, s.fifo[0] + 3)
      == s.(pc := at + 3, x := WORD - 1, osr := s.fifo[0], fifo := s.fifo[1..], pins := level,
            trace := s.trace + Level(OFF, 1) + Level(level, s.fifo[0] + 2))
  {
    var v := s.fifo[0];
    var n := BurstStarts(p, s, at, level);
    BurstCode(p, at, level);
    Countdown(p, Run(p, s, n), at, level);
    RunSplit(p, s, n, v + 1);
    Regroup(s.trace + Level(OFF, 1), Level(level, 1), Level(level, v + 1));
    LevelSum(level, 1, v + 1);
  }

  /** How many steps the first k bursts take. */
  function Duration(times: seq<nat>, k: nat): nat
    requires k <= |times|
  {
    if k == 0 then 0 else Duration(times, k - 1) + (times[k - 1] + 3)
  }

  /** The wave of the first k bursts, from the times that were put into the queue. */
  function Wave(times: seq<nat>, k: nat): seq<nat>
    requires k <= |times|
  {
    if k == 0 then [] else Wave(times, k - 1) + Level(OFF, 1) + Level(LevelOf(k - 1), times[k - 1] + 2)
  }

  /** torpedo_fire_sequence puts the times into the queue before it starts the program. */
  function Loaded(times: seq<nat>): Sm {
    Sm(0, 0, 0, 0, times, OFF, false, [])
  }

  predicate AfterBursts(s: Sm, times: seq<nat>, k: nat)
    requires k <= |times|
  {
    s.pc == 3 * k && s.fifo == times[k..] && s.trace == Wave(times, k) && !s.irq
  }

  lemma NextBurst(p: Program, s: Sm, times: seq<nat>, k: nat)
    requires Closed(p) && FiveBursts(p) && |times| == 5 && k < 5 && AfterBursts(s, times, k)
    ensures AfterBursts(Run(p, s, times[k] + 3), times, k + 1)
  {
    BurstRuns(p, s, 3 * k, LevelOf(k));
  }

  lemma OneMoreBurst(p: Program, s: Sm, d: nat, times: seq<nat>, k: nat)
    requires Closed(p) && FiveBursts(p) && s.pc < |p.code| && |times| == 5 && k < 5
    requires AfterBursts(Run(p, s, d), times, k)
    ensures AfterBursts(Run(p, s, d + (times[k] + 3)), times, k + 1)
  {
    NextBurst(p, Run(p, s, d), times, k);
    RunSplit(p, s, d, times[k] + 3);
  }

  lemma {:induction false} BurstsRun(p: Program, s: Sm, times: seq<nat>, k: nat)
    requires Closed(p) && FiveBursts(p) && |times| == 5 && k <= 5 && s == Loaded(times)
    ensures AfterBursts(Run(p, s, Duration(times, k)), times, k)
    decreases k
  {
    if k > 0 {
      BurstsRun(p, s, times, k - 1);
      OneMoreBurst(p, s, Duration(times, k - 1), times, k - 1);
    }
  }

  /** What the coils should see: each on for its time, with the delays between, and one idle cycle at the start. */
  function Wanted(t: seq<nat>): seq<nat>
    requires |t| == 5
  {
    Level(OFF, 1) + Level(COIL1, t[0]) + Level(OFF, t[1]) + Level(COIL2, t[2]) + (Level(OFF, t[3]) + Level(COIL3, t[4]))
  }

  /** What torpedo_set_timings stores for the times of the commands. */
  predicate Stored(stored: seq<nat>, t: seq<nat>) {
    |stored| == |t| == 5 && forall k :: 0 <= k < 5 ==> stored[k] + Spec.Compensation(k) == t[k]
  }

  /** The idle cycles around a delay belong to it. */
  lemma GapMerges(a: seq<nat>, v: nat, b: seq<nat>)
    ensures a + Level(OFF, 1) + Level(OFF, v + 2) + Level(OFF, 1) + b == a + (Level(OFF, v + 4) + b)
  {
    assert Level(OFF, 1) + Level(OFF, v + 2) + Level(OFF, 1) == Level(OFF, v + 4);
  }

  lemma PairOfBursts(stored: seq<nat>, t: seq<nat>, k: nat)
    requires Stored(stored, t) && (k == 1 || k == 3)
    ensures Wave(stored, k + 2) == Wave(stored, k) + (Level(OFF, t[k]) + Level(LevelOf(k + 1), t[k + 1]))
  {
    assert Wave(stored, k + 2) == Wave(stored, k + 1) + Level(OFF, 1) + Level(LevelOf(k + 1), t[k + 1]);
    GapMerges(Wave(stored, k), stored[k], Level(LevelOf(k + 1), t[k + 1]));
  }

  lemma WaveIsWanted(stored: seq<nat>, t: seq<nat>)
    requires Stored(stored, t)
    ensures Wave(stored, 5) == Wanted(t)
  {
    assert Wave(stored, 1) == Level(OFF, 1) + Level(COIL1, t[0]);
    PairOfBursts(stored, t, 1);
    PairOfBursts(stored, t, 3);
  }

  /**
   * For all stored times, the program drives each coil for exactly the commanded time,
   * with exactly the commanded delays between, and raises the interrupt only after that.
   */
  lemma CoilsDrivenExactly(stored: seq<nat>, t: seq<nat>)
    requires Stored(stored, t)
    ensures var s := Run(Prog(), Loaded(stored), Duration(stored, 5));
      s.trace == Wanted(t) && !s.irq && Step(Prog(), s).irq && Step(Prog(), s).trace == Wanted(t) + Level(OFF, 1)
  {
    ProgHasFiveBursts();
    BurstsRun(Prog(), Loaded(stored), stored, 5);
    WaveIsWanted(stored, t);
  }

  /** After the interrupt the coils stay off for as long as the program runs. */
  lemma {:induction false} StaysOff(p: Program, s: Sm, n: nat)
    requires Closed(p) && FiveBursts(p) && s.pc == 16
    ensures Run(p, s, n).trace == s.trace + Level(OFF, n)
    decreases n
  {
    if n == 0 {
      assert s.trace + Level(OFF, 0) == s.trace;
    } else {
      StaysOff(p, Step(p, s), n - 1);
      Regroup(s.trace, Level(OFF, 1), Level(OFF, n - 1));
      LevelSum(OFF, 1, n - 1);
    }
  }

  /** No coil is driven, or one. */
  predicate OneCoil(level: nat) {
    level in {OFF, COIL1, COIL2, COIL3}
  }

  /** The instruction drives at most one coil, by its side-set and not otherwise. */
  predicate Drives(i: Instr) {
    i.side.Some? && OneCoil(i.side.value) && !i.op.SetPins? && !i.op.OutPins?
  }

  lemma BurstDrives(at: nat, level: nat)
    requires OneCoil(level)
    ensures forall i :: i in Burst(at, level) ==> Drives(i)
  {}

  lemma CodeDrives()
    ensures forall i :: i in Code() ==> Drives(i)
  {
    BurstDrives(0, COIL1);
    BurstDrives(3, OFF);
    BurstDrives(6, COIL2);
    BurstDrives(9, OFF);
    BurstDrives(12, COIL3);
  }

  lemma StepDrives(p: Program, s: Sm)
    requires s.pc < |p.code| && Drives(p.code[s.pc]) && forall v :: v in s.trace ==> OneCoil(v)
    ensures forall v :: v in Step(p, s).trace ==> OneCoil(v)
  {
    assert OneCoil(Execute(p, p.code[s.pc].op, s.(pins := p.code[s.pc].side.value)).pins);
  }

  lemma {:induction false} RunDrives(p: Program, s: Sm, n: nat)
    requires Closed(p) && s.pc < |p.code| && (forall i :: i in p.code ==> Drives(i)) && forall v :: v in s.trace ==> OneCoil(v)
    ensures forall v :: v in Run(p, s, n).trace ==> OneCoil(v)
    decreases n
  {
    if n > 0 {
      StepDrives(p, s);
      RunDrives(p, Step(p, s), n - 1);
    }
  }

  /** Whatever has been put into the queue and for however long the program runs, at no time are two coils driven. */
  lemma OneCoilAtATime(queued: seq<nat>, n: nat, i: nat)
    requires i < |Run(Prog(), Loaded(queued), n).trace|
    ensures OneCoil(Run(Prog(), Loaded(queued), n).trace[i])
  {
    CodeDrives();
    RunDrives(Prog(), Loaded(queued), n);
  }
}
