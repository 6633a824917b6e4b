/**
 * The actuator board: claw, droppers and torpedoes, the alarms that stop them, and the kill
 * state that guards them. Times are in microseconds.
 */
module ActuatorBoardSpec {
  import opened KillSwitch

  const DROPPERS: nat := 2
  const TORPEDOES: nat := 2
  const TIMINGS: nat := 5
  const ON_SUBTRACT: nat := 2       // cycles that the coil program spends beyond a stored on time
  const OFF_SUBTRACT: nat := 4      // ... and beyond a stored delay
  const MS: nat := 1000

  datatype Result = Successful | Failed | Running

  // ---- Alarms ----

  datatype Action = ClawFinish(target: ClawState) | DropFinish(dropper: nat)

  datatype Alarm = Alarm(due: nat, action: Action)

  /** The pending alarms by id; ids are positive and never reused. */
  datatype Timer = Timer(alarms: map<nat, Alarm>, nextId: nat)

  function AddAlarm(t: Timer, due: nat, action: Action): Timer {
    Timer(t.alarms[t.nextId := Alarm(due, action)], t.nextId + 1)
  }

  function CancelAlarm(t: Timer, id: nat): Timer {
    t.(alarms := t.alarms - {id})
  }

  // ---- Actuators ----

  datatype ClawState = UnknownPosition | Opened | Closed | Opening | Closing

  datatype Claw = Claw(state: ClawState, openTime: nat, closeTime: nat, alarm: nat, enabled: bool, forward: bool)

  datatype Dropper = Dropper(dropping: bool, dropped: bool, stopTimer: nat, on: bool)

  /** `shots` counts the firings since the torpedoes were last armed. */
  datatype Torpedo = Torpedo(timings: seq<nat>, fired: bool, selected: bool, shots: nat)

  datatype Board = Board(
    safety: Safety,
    claw: Claw,
    dropTime: nat,
    droppers: seq<Dropper>,
    torpedoes: seq<Torpedo>,
    active: nat,                    // number of the torpedo that is firing, or 0
    armed: bool,
    sequencing: bool,               // the coil program is running
    charged: bool,
    timer: Timer,
    now: nat)

  predicate Moving(c: Claw) {
    c.state == Opening || c.state == Closing
  }

  // ---- Claw ----

  function StopClaw(c: Claw, target: ClawState): Claw {
    c.(enabled := false, forward := false, alarm := 0, state := target)
  }

  function ClawTimings(b: Board, open: nat, close: nat): (Board, Result) {
    if open == 0 || close == 0 then (b, Failed) else (b.(claw := b.claw.(openTime := open, closeTime := close)), Successful)
  }

  function MoveClaw(b: Board, opening: bool): (Board, Result) {
    var c := b.claw;
    if b.safety.killed || c.openTime == 0 || c.closeTime == 0 then (b, Failed)
    else if c.state == (if opening then Opened else Closed) then (b, Successful)
    else if c.state == (if opening then Opening else Closing) then (b, Running)
    else if Moving(c) then (b, Failed)
    else
      var time := if opening then c.openTime else c.closeTime;
      (b.(claw := c.(state := if opening then Opening else Closing, alarm := b.timer.nextId, enabled := true, forward := opening),
          timer := AddAlarm(b.timer, b.now + time * MS, ClawFinish(if opening then Opened else Closed))),
       Running)
  }

  function DisableClaw(b: Board): Board {
    if Moving(b.claw) then b.(timer := CancelAlarm(b.timer, b.claw.alarm), claw := StopClaw(b.claw, UnknownPosition)) else b
  }

  // ---- Droppers ----

  function StopDropper(d: Dropper): Dropper {
    d.(dropped := true, dropping := false, stopTimer := 0, on := false)
  }

  function DropperTiming(b: Board, time: nat): (Board, Result) {
    if time == 0 then (b, Failed) else (b.(dropTime := time), Successful)
  }

  function DropMarker(b: Board, num: nat): (Board, Result)
    requires |b.droppers| == DROPPERS
  {
    if num == 0 || num > DROPPERS || b.safety.killed || b.dropTime == 0 then (b, Failed)
    else
      var d := b.droppers[num - 1];
      if d.dropping then (b, Running)
      else if d.dropped then (b, Successful)
      else
        (b.(droppers := b.droppers[num - 1 := d.(dropping := true, stopTimer := b.timer.nextId, on := true)],
            timer := AddAlarm(b.timer, b.now + b.dropTime * MS, DropFinish(num - 1))),
         Running)
  }

  function Cleared(d: Dropper): Dropper {
    if d.dropping then d else d.(dropped := false)
  }

  function ClearDroppers(b: Board): (Board, Result) {
    (b.(droppers := seq(|b.droppers|, i requires 0 <= i < |b.droppers| => Cleared(b.droppers[i]))),
     if exists i :: 0 <= i < |b.droppers| && b.droppers[i].dropping then Failed else Successful)
  }

  function DisableDropper(b: Board, i: nat): Board
    requires i < |b.droppers|
  {
    var d := b.droppers[i];
    if d.dropping then b.(timer := CancelAlarm(b.timer, d.stopTimer), droppers := b.droppers[i := StopDropper(d)]) else b
  }

  // ---- Torpedoes ----

  /** Even timing types are on times, odd ones are delays. */
  function Compensation(kind: nat): nat {
    if kind % 2 == 0 then ON_SUBTRACT else OFF_SUBTRACT
  }

  function TorpedoTiming(b: Board, num: nat, kind: nat, time: nat): (Board, Result)
    requires WellFormed(b)
  {
    if num < 1 || num > TORPEDOES || kind >= TIMINGS || time < Compensation(kind) || b.active == num then (b, Failed)
    else
      var t := b.torpedoes[num - 1];
      (b.(torpedoes := b.torpedoes[num - 1 := t.(timings := t.timings[kind := time - Compensation(kind)])]), Successful)
  }

  /** A stored time of zero counts as not set. */
  predicate Timed(t: Torpedo) {
    forall i :: 0 <= i < |t.timings| ==> t.timings[i] != 0
  }

  function Fire(b: Board, num: nat): (Board, Result)
    requires WellFormed(b)
  {
    if num == 0 || num > TORPEDOES || b.safety.killed || (b.active != 0 && b.active != num) then (b, Failed)
    else
      var t := b.torpedoes[num - 1];
      if !Timed(t) || !b.armed then (b, Failed)
      else if b.active == num then (b, Running)
      else if t.fired then (b, Successful)
      else if !b.charged then (b, Failed)
      else
        (b.(torpedoes := b.torpedoes[num - 1 := t.(selected := true, shots := t.shots + 1)], active := num, sequencing := true),
         Running)
  }

  function Rearmed(t: Torpedo): Torpedo {
    t.(fired := false, shots := 0)
  }

  function Arm(b: Board): (Board, Result) {
    if b.safety.killed then (b, Failed)
    else if b.armed then (b, Successful)
    else
      (b.(armed := true, torpedoes := seq(|b.torpedoes|, i requires 0 <= i < |b.torpedoes| => Rearmed(b.torpedoes[i]))),
       Successful)
  }

  function Disarm(b: Board): (Board, Result) {
    if b.active != 0 then (b, Failed) else (b.(armed := false), Successful)
  }

  /** The interrupt at the end of the coil program. */
  function Fired(b: Board): Board
    requires 1 <= b.active <= |b.torpedoes|
  {
    var t := b.torpedoes[b.active - 1];
    b.(sequencing := false, torpedoes := b.torpedoes[b.active - 1 := t.(selected := false, fired := true)], active := 0)
  }

  function MarkFired(ts: seq<Torpedo>, active: nat): (r: seq<Torpedo>)
    requires active <= |ts|
    ensures |r| == |ts|
  {
    if active != 0 then ts[active - 1 := ts[active - 1].(fired := true)] else ts
  }

  function DisableTorpedoes(b: Board): Board
    requires b.active <= |b.torpedoes|
  {
    var ts := MarkFired(b.torpedoes, b.active);
    b.(torpedoes := seq(|ts|, i requires 0 <= i < |ts| => ts[i].(selected := false)),
       active := 0, sequencing := false, armed := false)
  }

  // ---- The board ----

  predicate WellFormed(b: Board) {
    && |b.droppers| == DROPPERS && |b.torpedoes| == TORPEDOES && b.active <= TORPEDOES
    && (forall i :: 0 <= i < TORPEDOES ==> |b.torpedoes[i].timings| == TIMINGS)
    && |b.safety.switches| == 1 && b.safety.initialized
  }

  function KillAll(b: Board): Board
    requires WellFormed(b)
  {
    DisableTorpedoes(DisableClaw(DisableDropper(DisableDropper(b, 0), 1)))
  }

  datatype Command =
    | GetStatus
    | OpenClaw
    | CloseClaw
    | SetClawTiming(open: nat, close: nat)
    | ArmTorpedo
    | DisarmTorpedo
    | FireTorpedo(num: nat)
    | SetTorpedoTiming(num: nat, kind: nat, time: nat)
    | Drop(num: nat)
    | ClearDropperStatus
    | SetDropperTiming(time: nat)
    | SetKillSwitch(asserting: bool)

  function KillSwitchCommand(b: Board, asserting: bool): Board
    requires WellFormed(b)
  {
    var s := Update(b.safety, 0, asserting, true, b.now);
    if asserting then KillAll(b.(safety := s)) else b.(safety := s)
  }

  function Execute(b: Board, c: Command): (r: (Board, Result))
    requires WellFormed(b)
  {
    match c
    case GetStatus => (b, Successful)
    case OpenClaw => MoveClaw(b, true)
    case CloseClaw => MoveClaw(b, false)
    case SetClawTiming(open, close) => ClawTimings(b, open, close)
    case ArmTorpedo => Arm(b)
    case DisarmTorpedo => Disarm(b)
    case FireTorpedo(num) => Fire(b, num)
    case SetTorpedoTiming(num, kind, time) => TorpedoTiming(b, num, kind, time)
    case Drop(num) => DropMarker(b, num)
    case ClearDropperStatus => ClearDroppers(b)
    case SetDropperTiming(time) => DropperTiming(b, time)
    case SetKillSwitch(asserting) => (KillSwitchCommand(b, asserting), Successful)
  }

  function SafetyTick(b: Board): Board
    requires WellFormed(b)
  {
    var s := Refresh(b.safety, b.now);
    if s.killed && !b.safety.killed then KillAll(b.(safety := s)) else b.(safety := s)
  }

  function RunAlarm(b: Board, id: nat): Board
    requires id in b.timer.alarms && |b.droppers| == DROPPERS
  {
    var c := b.(timer := CancelAlarm(b.timer, id));
    match b.timer.alarms[id].action
    case ClawFinish(target) => c.(claw := StopClaw(c.claw, target))
    case DropFinish(i) => if i < DROPPERS then c.(droppers := c.droppers[i := StopDropper(c.droppers[i])]) else c
  }

  datatype Event = Pass(us: nat) | Do(command: Command) | Tick | AlarmFires(id: nat) | SequenceDone | ChargeIs(charged: bool)

  /** Alarms are punctual, and the coil program ends only while it runs. */
  predicate Enabled(b: Board, e: Event) {
    match e
    case Pass(us) => forall id :: id in b.timer.alarms ==> b.now + us <= b.timer.alarms[id].due
    case AlarmFires(id) => id in b.timer.alarms && b.timer.alarms[id].due == b.now
    case SequenceDone => b.sequencing && b.active != 0
    case _ => true
  }

  function Step(b: Board, e: Event): Board
    requires WellFormed(b)
  {
    if !Enabled(b, e) then b
    else match e
      case Pass(us) => b.(now := b.now + us)
      case Do(command) => Execute(b, command).0
      case Tick => SafetyTick(b)
      case AlarmFires(id) => RunAlarm(b, id)
      case SequenceDone => Fired(b)
      case ChargeIs(charged) => b.(charged := charged)
  }

  function Start(): Board {
    Board(Safety([Switch(false, false, false, 0, seq(FRAME_SIZE, _ => 0))], true, true, 0),
          Claw(UnknownPosition, 0, 0, 0, false, false), 0, seq(DROPPERS, _ => Dropper(false, false, 0, false)),
          seq(TORPEDOES, _ => Torpedo(seq(TIMINGS, _ => 0), false, false, 0)), 0, false, false, false,
          Timer(map[], 1), 0)
  }

  // ---- What every run keeps ----

  /** The motor runs while the claw moves, and exactly one alarm is pending that will stop it in the right position. */
  ghost predicate ClawSafe(claw: Claw, timer: Timer) {
    && (claw.enabled <==> Moving(claw))
    && (Moving(claw) ==>
          && claw.alarm in timer.alarms && claw.forward == (claw.state == Opening)
          && timer.alarms[claw.alarm].action == ClawFinish(if claw.state == Opening then Opened else Closed))
    && (forall id :: id in timer.alarms && timer.alarms[id].action.ClawFinish? ==> Moving(claw) && id == claw.alarm)
  }

  ghost predicate DropperSafe(d: Dropper, i: nat, timer: Timer) {
    && (d.on <==> d.dropping)
    && (d.dropping ==> d.stopTimer in timer.alarms && timer.alarms[d.stopTimer].action == DropFinish(i))
    && (forall id :: id in timer.alarms && timer.alarms[id].action == DropFinish(i) ==> d.dropping && id == d.stopTimer)
  }

  ghost predicate TimerSafe(timer: Timer, now: nat) {
    && timer.nextId > 0
    && (forall id :: id in timer.alarms ==>
          && 0 < id < timer.nextId && now <= timer.alarms[id].due
          && (timer.alarms[id].action.DropFinish? ==> timer.alarms[id].action.dropper < DROPPERS))
  }

  /** At most one torpedo is selected, the active one; it is armed and timed. Each was fired at most once since arming. */
  predicate TorpedoesSafe(ts: seq<Torpedo>, active: nat, armed: bool, sequencing: bool) {
    && |ts| == TORPEDOES && active <= TORPEDOES
    && (sequencing <==> active != 0)
    && (active != 0 ==> armed && Timed(ts[active - 1]))
    && (forall i :: 0 <= i < TORPEDOES ==>
          && (ts[i].selected <==> active == i + 1)
          && (active == i + 1 ==> !ts[i].fired)
          && ts[i].shots == if ts[i].fired || active == i + 1 then 1 else 0)
  }

  /** Everything is off. */
  predicate AllOff(b: Board) {
    && !b.claw.enabled && (forall i :: 0 <= i < |b.droppers| ==> !b.droppers[i].on)
    && b.active == 0 && !b.sequencing && !b.armed && (forall i :: 0 <= i < |b.torpedoes| ==> !b.torpedoes[i].selected)
  }

  ghost predicate Inv(b: Board) {
    && WellFormed(b) && Prompt(b.safety)
    && TimerSafe(b.timer, b.now) && ClawSafe(b.claw, b.timer)
    && (forall i :: 0 <= i < DROPPERS ==> DropperSafe(b.droppers[i], i, b.timer))
    && TorpedoesSafe(b.torpedoes, b.active, b.armed, b.sequencing)
    && (b.safety.killed ==> AllOff(b) && b.timer.alarms == map[])
  }
}
