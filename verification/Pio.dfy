/** A cycle-accurate interpreter for the PIO instructions that the two programs use. */
module Pio {
  import opened Common

  const WORD: nat := 0x1_0000_0000

  datatype Op =
    | Pull(block: bool)
    | MovXOsr
    | MovYOsr
    | SetY(v: nat)
    | SetPins(v: nat)
    | SetPinDirs(v: nat)
    | OutPins                       // one bit, shifting left
    | JmpXDec(target: nat)
    | JmpYDec(target: nat)
    | JmpNotY(target: nat)
    | Jmp(target: nat)
    | Irq
    | Nop

  /** An instruction takes one cycle and its delay; a side-set takes effect as it starts. */
  datatype Instr = Instr(op: Op, side: Option<nat>, delay: nat)

  datatype Program = Program(code: seq<Instr>, wrapTarget: nat, wrap: nat)

  /** A state machine; `trace` is the level of the pins in each cycle so far. */
  datatype Sm = Sm(pc: nat, x: nat, y: nat, osr: nat, fifo: seq<nat>, pins: nat, irq: bool, trace: seq<nat>)

  function Next(p: Program, pc: nat): nat {
    if pc == p.wrap then p.wrapTarget else pc + 1
  }

  /** Decrementing zero wraps around. */
  function Dec(v: nat): nat {
    if v == 0 then WORD - 1 else v - 1
  }

  predicate Stalled(op: Op, s: Sm) {
    op.Pull? && op.block && s.fifo == []
  }

  function Execute(p: Program, op: Op, s: Sm): Sm {
    var n := Next(p, s.pc);
    match op
    case Pull(block) =>
      if s.fifo != [] then s.(pc := n, osr := s.fifo[0], fifo := s.fifo[1..])
      else if block then s
      else s.(pc := n, osr := s.x)
    case MovXOsr => s.(pc := n, x := s.osr)
    case MovYOsr => s.(pc := n, y := s.osr)
    case SetY(v) => s.(pc := n, y := v)
    case SetPins(v) => s.(pc := n, pins := v)
    case SetPinDirs(_) => s.(pc := n)
    case OutPins => s.(pc := n, pins := s.osr / 0x8000_0000, osr := s.osr * 2 % WORD)
    case JmpXDec(t) => s.(pc := if s.x != 0 then t else n, x := Dec(s.x))
    case JmpYDec(t) => s.(pc := if s.y != 0 then t else n, y := Dec(s.y))
    case JmpNotY(t) => s.(pc := if s.y == 0 then t else n)
    case Jmp(t) => s.(pc := t)
    case Irq => s.(pc := n, irq := true)
    case Nop => s.(pc := n)
  }

  function Level(v: nat, cycles: nat): (t: seq<nat>)
    ensures |t| == cycles
  {
    seq(cycles, _ => v)
  }

  /** One instruction, with its delay unless it stalls. */
  function Step(p: Program, s: Sm): Sm
    requires s.pc < |p.code|
  {
    var i := p.code[s.pc];
    var t := Execute(p, i.op, if i.side.Some? then s.(pins := i.side.value) else s);
    t.(trace := s.trace + Level(t.pins, if Stalled(i.op, s) then 1 else 1 + i.delay))
  }

  predicate Closed(p: Program) {
    && p.wrapTarget < |p.code| && p.wrap < |p.code|
    && (forall i :: 0 <= i < |p.code| ==>
          && (i + 1 < |p.code| || i == p.wrap)
          && (match p.code[i].op
              case JmpXDec(t) => t < |p.code|
              case JmpYDec(t) => t < |p.code|
              case JmpNotY(t) => t < |p.code|
              case Jmp(t) => t < |p.code|
              case _ => true))
  }

  lemma StepStays(p: Program, s: Sm)
    requires Closed(p) && s.pc < |p.code|
    ensures Step(p, s).pc < |p.code|
  {}

  function Run(p: Program, s: Sm, n: nat): (t: Sm)
    requires Closed(p) && s.pc < |p.code|
    ensures t.pc < |p.code|
    decreases n
  {
    if n == 0 then s
    else
      StepStays(p, s);
      Run(p, Step(p, s), n - 1)
  }

  lemma RunFirst(p: Program, s: Sm, n: nat)
    requires Closed(p) && s.pc < |p.code|
    ensures Step(p, s).pc < |p.code| && Run(p, s, n + 1) == Run(p, Step(p, s), n)
  {
    StepStays(p, s);
  }

  lemma {:induction false} RunSplit(p: Program, s: Sm, m: nat, n: nat)
    requires Closed(p) && s.pc < |p.code|
    ensures Run(p, s, m + n) == Run(p, Run(p, s, m), n)
    decreases m
  {
    if m > 0 {
      RunFirst(p, s, m - 1);
      RunFirst(p, s, m - 1 + n);
      RunSplit(p, Step(p, s), m - 1, n);
    }
  }

  lemma RunOne(p: Program, s: Sm)
    requires Closed(p) && s.pc < |p.code|
    ensures Run(p, s, 1) == Step(p, s)
  {
    assert Run(p, Step(p, s), 0) == Step(p, s);
  }

  lemma RunTwo(p: Program, s: Sm)
    requires Closed(p) && s.pc < |p.code|
    ensures Step(p, s).pc < |p.code| && Run(p, s, 2) == Step(p, Step(p, s))
  {
    StepStays(p, s);
    RunOne(p, Step(p, s));
  }

  lemma LevelSum(v: nat, a: nat, b: nat)
    ensures Level(v, a) + Level(v, b) == Level(v, a + b)
  {}
}
