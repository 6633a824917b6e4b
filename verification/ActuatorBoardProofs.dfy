/** What every run of the actuator board keeps. */
module ActuatorBoardProofs {
  import opened ActuatorBoardSpec
  import opened KillSwitch

  /** The part of the invariant that does not depend on the kill state. */
  ghost predicate Core(b: Board) {
    && WellFormed(b)
    && TimerSafe(b.timer, b.now) && ClawSafe(b.claw, b.timer)
    && (forall i :: 0 <= i < DROPPERS ==> DropperSafe(b.droppers[i], i, b.timer))
    && TorpedoesSafe(b.torpedoes, b.active, b.armed, b.sequencing)
  }

  // ---- Commands ----

  lemma AddKeepsTimer(t: Timer, now: nat, due: nat, action: Action)
    requires TimerSafe(t, now) && now <= due && (action.DropFinish? ==> action.dropper < DROPPERS)
    ensures TimerSafe(AddAlarm(t, due, action), now)
  {}

  lemma ClawAlarmKeepsDropper(d: Dropper, i: nat, t: Timer, now: nat, due: nat, target: ClawState)
    requires TimerSafe(t, now) && DropperSafe(d, i, t)
    ensures DropperSafe(d, i, AddAlarm(t, due, ClawFinish(target)))
  {}

  lemma ClawStartsSafe(c: Claw, t: Timer, now: nat, due: nat, opening: bool)
    requires TimerSafe(t, now) && ClawSafe(c, t) && !Moving(c)
    ensures ClawSafe(c.(state := if opening then Opening else Closing, alarm := t.nextId, enabled := true, forward := opening),
                     AddAlarm(t, due, ClawFinish(if opening then Opened else Closed)))
  {}

  lemma MoveClawKeeps(b: Board, opening: bool)
    requires Core(b)
    ensures Core(MoveClaw(b, opening).0)
  {
    if !Moving(b.claw) {
      var due := b.now + (if opening then b.claw.openTime else b.claw.closeTime) * MS;
      var target := if opening then Opened else Closed;
      AddKeepsTimer(b.timer, b.now, due, ClawFinish(target));
      ClawStartsSafe(b.claw, b.timer, b.now, due, opening);
      forall i | 0 <= i < DROPPERS ensures DropperSafe(b.droppers[i], i, AddAlarm(b.timer, due, ClawFinish(target))) {
        ClawAlarmKeepsDropper(b.droppers[i], i, b.timer, b.now, due, target);
      }
    }
  }

  lemma DropMarkerKeeps(b: Board, num: nat)
    requires Core(b)
    ensures Core(DropMarker(b, num).0)
  {}

  lemma TorpedoesKeep(b: Board, c: Command)
    requires Core(b) && (c.FireTorpedo? || c.ArmTorpedo? || c.DisarmTorpedo? || c.SetTorpedoTiming?)
    ensures Core(Execute(b, c).0)
  {}

  // ---- Kill ----

  lemma DisableClawKeeps(b: Board)
    requires Core(b)
    ensures Core(DisableClaw(b)) && !Moving(DisableClaw(b).claw)
  {}

  lemma DisableDropperKeeps(b: Board, i: nat)
    requires Core(b) && i < DROPPERS
    ensures Core(DisableDropper(b, i)) && !DisableDropper(b, i).droppers[i].dropping
    ensures forall j :: 0 <= j < DROPPERS && !b.droppers[j].dropping ==> !DisableDropper(b, i).droppers[j].dropping
  {}

  lemma DisableTorpedoesKeeps(b: Board)
    requires Core(b)
    ensures Core(DisableTorpedoes(b))
    ensures var c := DisableTorpedoes(b); c.active == 0 && !c.armed && !c.sequencing
  {}

  lemma AlarmHasOwner(b: Board, id: nat)
    requires Core(b) && id in b.timer.alarms
    ensures Moving(b.claw) || exists i :: 0 <= i < DROPPERS && b.droppers[i].dropping
  {
    var action := b.timer.alarms[id].action;
    if action.DropFinish? { assert DropperSafe(b.droppers[action.dropper], action.dropper, b.timer); }
  }

  predicate Quiet(b: Board) {
    !Moving(b.claw) && forall i :: 0 <= i < |b.droppers| ==> !b.droppers[i].dropping
  }

  lemma QuietTimer(b: Board)
    requires Core(b) && Quiet(b)
    ensures b.timer.alarms == map[]
  {
    forall id ensures id !in b.timer.alarms {
      if id in b.timer.alarms { AlarmHasOwner(b, id); }
    }
  }

  lemma DroppersOff(b: Board)
    requires Core(b)
    ensures var c := DisableDropper(DisableDropper(b, 0), 1);
      Core(c) && c.safety == b.safety && forall i :: 0 <= i < |c.droppers| ==> !c.droppers[i].dropping
  {
    DisableDropperKeeps(b, 0);
    DisableDropperKeeps(DisableDropper(b, 0), 1);
  }

  lemma QuietIsOff(b: Board)
    requires Core(b) && Quiet(b)
    ensures Core(DisableTorpedoes(b)) && AllOff(DisableTorpedoes(b))
  {
    DisableTorpedoesKeeps(b);
    forall i | 0 <= i < |b.droppers| ensures !b.droppers[i].on { assert DropperSafe(b.droppers[i], i, b.timer); }
  }

  /** A kill switches everything off, and leaves no alarm behind. */
  lemma KillAllOff(b: Board)
    requires Core(b)
    ensures Core(KillAll(b)) && AllOff(KillAll(b)) && KillAll(b).timer.alarms == map[] && KillAll(b).safety == b.safety
  {
    var c := DisableDropper(DisableDropper(b, 0), 1);
    DroppersOff(b);
    DisableClawKeeps(c);
    QuietTimer(DisableClaw(c));
    QuietIsOff(DisableClaw(c));
  }

  // ---- Steps ----

  lemma KillSwitchKeeps(b: Board, asserting: bool)
    requires Inv(b)
    ensures Inv(KillSwitchCommand(b, asserting))
  {
    var s := Update(b.safety, 0, asserting, true, b.now);
    UpdatePrompt(b.safety, 0, asserting, true, b.now);
    assert Core(b.(safety := s));
    KillAllOff(b.(safety := s));
  }

  lemma TickKeeps(b: Board)
    requires Inv(b)
    ensures Inv(SafetyTick(b))
  {
    var s := Refresh(b.safety, b.now);
    RefreshExact(b.safety, b.now);
    assert Core(b.(safety := s));
    KillAllOff(b.(safety := s));
  }

  /** While the robot is killed, no command switches anything on. */
  lemma KilledExecute(b: Board, c: Command)
    requires Inv(b) && b.safety.killed && !c.SetKillSwitch?
    ensures var d := Execute(b, c).0; AllOff(d) && d.timer.alarms == map[] && d.safety == b.safety
  {}

  lemma ExecuteKeeps(b: Board, c: Command)
    requires Inv(b)
    ensures Inv(Execute(b, c).0)
  {
    match c
    case SetKillSwitch(asserting) => KillSwitchKeeps(b, asserting);
    case _ =>
      ExecuteKeepsCore(b, c);
      if b.safety.killed { KilledExecute(b, c); }
  }

  lemma ExecuteKeepsCore(b: Board, c: Command)
    requires Core(b) && !c.SetKillSwitch?
    ensures Core(Execute(b, c).0) && Execute(b, c).0.safety == b.safety
  {
    match c
    case OpenClaw => MoveClawKeeps(b, true);
    case CloseClaw => MoveClawKeeps(b, false);
    case Drop(num) => DropMarkerKeeps(b, num);
    case FireTorpedo(num) => TorpedoesKeep(b, c);
    case ArmTorpedo => TorpedoesKeep(b, c);
    case DisarmTorpedo => TorpedoesKeep(b, c);
    case SetTorpedoTiming(num, kind, time) => TorpedoesKeep(b, c);
    case _ =>
  }

  lemma ClawAlarmKeeps(b: Board, id: nat)
    requires Core(b) && id in b.timer.alarms && b.timer.alarms[id].action.ClawFinish?
    ensures Core(RunAlarm(b, id))
  {}

  lemma DropAlarmKeeps(b: Board, id: nat)
    requires Core(b) && id in b.timer.alarms && b.timer.alarms[id].action.DropFinish?
    ensures Core(RunAlarm(b, id))
  {}

  lemma AlarmKeeps(b: Board, id: nat)
    requires Inv(b) && id in b.timer.alarms
    ensures Inv(RunAlarm(b, id))
  {
    match b.timer.alarms[id].action
    case ClawFinish(_) => ClawAlarmKeeps(b, id);
    case DropFinish(_) => DropAlarmKeeps(b, id);
  }

  lemma StepKeeps(b: Board, e: Event)
    requires Inv(b)
    ensures Inv(Step(b, e))
  {
    if Enabled(b, e) {
      match e
      case Do(command) => ExecuteKeeps(b, command);
      case Tick => TickKeeps(b);
      case AlarmFires(id) => AlarmKeeps(b, id);
      case _ =>
    }
  }

  lemma StartKeeps()
    ensures Inv(Start())
  {}

  lemma ExecuteWellFormed(b: Board, c: Command)
    requires WellFormed(b) && !c.SetKillSwitch?
    ensures WellFormed(Execute(b, c).0)
  {}

  lemma DisableDropperWellFormed(b: Board, i: nat)
    requires WellFormed(b) && i < DROPPERS
    ensures WellFormed(DisableDropper(b, i))
  {}

  lemma DisableClawWellFormed(b: Board)
    requires WellFormed(b)
    ensures WellFormed(DisableClaw(b))
  {}

  lemma DisableTorpedoesWellFormed(b: Board)
    requires WellFormed(b)
    ensures WellFormed(DisableTorpedoes(b))
  {}

  lemma KillWellFormed(b: Board)
    requires WellFormed(b)
    ensures WellFormed(KillAll(b))
  {
    DisableDropperWellFormed(b, 0);
    DisableDropperWellFormed(DisableDropper(b, 0), 1);
    var c := DisableDropper(DisableDropper(b, 0), 1);
    DisableClawWellFormed(c);
    DisableTorpedoesWellFormed(DisableClaw(c));
  }

  lemma KillSwitchWellFormed(b: Board, asserting: bool)
    requires WellFormed(b)
    ensures WellFormed(KillSwitchCommand(b, asserting))
  {
    KillWellFormed(b.(safety := Update(b.safety, 0, asserting, true, b.now)));
  }

  lemma TickWellFormed(b: Board)
    requires WellFormed(b)
    ensures WellFormed(SafetyTick(b))
  {
    KillWellFormed(b.(safety := Refresh(b.safety, b.now)));
  }

  lemma StepWellFormed(b: Board, e: Event)
    requires WellFormed(b)
    ensures WellFormed(Step(b, e))
  {
    if Enabled(b, e) {
      match e
      case Do(SetKillSwitch(asserting)) => KillSwitchWellFormed(b, asserting);
      case Do(command) => ExecuteWellFormed(b, command);
      case Tick => TickWellFormed(b);
      case _ =>
    }
  }

  function RunFrom(b: Board, es: seq<Event>): (c: Board)
    requires WellFormed(b)
    ensures WellFormed(c)
  {
    if es == [] then b
    else
      var c := RunFrom(b, es[..|es| - 1]);
      StepWellFormed(c, es[|es| - 1]);
      Step(c, es[|es| - 1])
  }

  function Run(es: seq<Event>): (b: Board)
    ensures WellFormed(b)
  {
    RunFrom(Start(), es)
  }

  lemma {:induction false} RunFromKeeps(b: Board, es: seq<Event>)
    requires Inv(b)
    ensures Inv(RunFrom(b, es))
  {
    if es != [] {
      RunFromKeeps(b, es[..|es| - 1]);
      StepKeeps(RunFrom(b, es[..|es| - 1]), es[|es| - 1]);
    }
  }

  lemma RunKeeps(es: seq<Event>)
    ensures Inv(Run(es))
  {
    StartKeeps();
    RunFromKeeps(Start(), es);
  }

  /** In every run: killed means that the claw motor, the droppers, the torpedoes and the arm pin are off. */
  lemma KilledIsOff(es: seq<Event>)
    ensures Run(es).safety.killed ==> AllOff(Run(es)) && Run(es).timer.alarms == map[]
  {
    RunKeeps(es);
  }

  /** A kill takes effect within the call. */
  lemma KillTakesEffect(b: Board)
    requires Inv(b)
    ensures KillSwitchCommand(b, true).safety.killed && AllOff(KillSwitchCommand(b, true))
  {
    KillSwitchKeeps(b, true);
  }

  /** A tick makes the kill state what the switch says, and switches everything off if that is a kill. */
  lemma TickIsExact(b: Board)
    requires Inv(b)
    ensures SafetyTick(b).safety.killed == MustKill(b.safety.switches, b.now)
    ensures SafetyTick(b).safety.killed ==> AllOff(SafetyTick(b))
  {
    TickKeeps(b);
    RefreshExact(b.safety, b.now);
  }

  function ClawAlarms(b: Board): set<nat> {
    set id | id in b.timer.alarms && b.timer.alarms[id].action.ClawFinish?
  }

  function DropAlarms(b: Board, i: nat): set<nat> {
    set id | id in b.timer.alarms && b.timer.alarms[id].action == DropFinish(i)
  }

  /** In every run: a moving claw and a running dropper are stopped by exactly one pending alarm each; others by none. */
  lemma OneStopAlarmEach(es: seq<Event>, i: nat)
    requires i < DROPPERS
    ensures var b := Run(es);
      && ClawAlarms(b) == (if b.claw.enabled then {b.claw.alarm} else {})
      && DropAlarms(b, i) == (if b.droppers[i].on then {b.droppers[i].stopTimer} else {})
  {
    RunKeeps(es);
    assert DropperSafe(Run(es).droppers[i], i, Run(es).timer);
  }

  /** In every run: at most one torpedo is selected, the one that is firing; it is armed and all its times are set. */
  lemma OneTorpedoAtATime(es: seq<Event>, i: nat)
    requires i < TORPEDOES && Run(es).torpedoes[i].selected
    ensures var b := Run(es);
      && b.active == i + 1 && b.armed && Timed(b.torpedoes[i])
      && forall j :: 0 <= j < TORPEDOES && b.torpedoes[j].selected ==> j == i
  {
    RunKeeps(es);
  }

  /**
   * In every run: each torpedo has fired at most once since the torpedoes were last armed,
   * whether or not a kill cut the shot short.
   */
  lemma FiredOncePerArming(es: seq<Event>, i: nat)
    requires i < TORPEDOES
    ensures Run(es).torpedoes[i].shots <= 1
    ensures Run(es).torpedoes[i].shots == 1 <==> Run(es).torpedoes[i].fired || Run(es).active == i + 1
  {
    RunKeeps(es);
  }

  /** A shot that a kill interrupts counts as fired: without a new arming, the torpedo does not fire again. */
  lemma InterruptedShotStaysFired(b: Board, i: nat, d: Board)
    requires Inv(b) && i < TORPEDOES && b.active == i + 1 && d == KillSwitchCommand(b, true)
    ensures Inv(d) && d.torpedoes[i].fired && d.torpedoes[i].shots == 1 && !d.armed && Fire(d, i + 1).0 == d
  {
    KillSwitchKeeps(b, true);
  }

  /** An accepted torpedo time of exactly the compensation is stored as zero, which counts as not set. */
  lemma SmallestTimeIsUnset(b: Board, num: nat, kind: nat, time: nat)
    requires Inv(b) && TorpedoTiming(b, num, kind, time).1 == Successful
    ensures var t := TorpedoTiming(b, num, kind, time).0.torpedoes[num - 1];
      && t.timings[kind] + Compensation(kind) == time
      && (Timed(t) ==> time > Compensation(kind))
  {}

  // ---- What a command sets going ----

  lemma RunOne(b: Board, es: seq<Event>, e: Event)
    requires WellFormed(b)
    ensures RunFrom(b, es + [e]) == Step(RunFrom(b, es), e)
  {
    assert (es + [e])[..|es|] == es;
  }

  /** At no point of the run, its start included, is the robot killed. */
  predicate NeverKilled(b: Board, es: seq<Event>)
    requires WellFormed(b)
  {
    !RunFrom(b, es).safety.killed && (es != [] ==> NeverKilled(b, es[..|es| - 1]))
  }

  lemma KillTakesNoTime(b: Board)
    requires WellFormed(b)
    ensures KillAll(b).now == b.now
  {
    var c := DisableDropper(b, 0);
    DisableDropperWellFormed(b, 0);
    var d := DisableDropper(c, 1);
    assert c.now == b.now && d.now == b.now && DisableClaw(d).now == b.now;
  }

  lemma CommandTakesNoTime(b: Board, c: Command)
    requires WellFormed(b)
    ensures Execute(b, c).0.now == b.now
  {
    if c.SetKillSwitch? { KillTakesNoTime(b.(safety := KillSwitch.Update(b.safety, 0, c.asserting, true, b.now))); }
  }

  lemma TimePasses(b: Board, e: Event)
    requires WellFormed(b)
    ensures b.now <= Step(b, e).now
  {
    if Enabled(b, e) {
      match e
      case Do(command) => CommandTakesNoTime(b, command);
      case Tick => KillTakesNoTime(b.(safety := Refresh(b.safety, b.now)));
      case _ =>
    }
  }

  /** What a command leaves. */
  function After(b: Board, c: Command): (d: Board)
    requires WellFormed(b)
    ensures WellFormed(d)
  {
    CommandWellFormed(b, c);
    Execute(b, c).0
  }

  lemma CommandWellFormed(b: Board, c: Command)
    requires WellFormed(b)
    ensures WellFormed(Execute(b, c).0)
  {
    match c
    case SetKillSwitch(asserting) => KillSwitchWellFormed(b, asserting);
    case _ => ExecuteWellFormed(b, c);
  }

  // The claw.

  function ClawTarget(opening: bool): ClawState {
    if opening then Opened else Closed
  }

  /** The claw moves in this direction, and this alarm will stop it at that time. */
  predicate ClawMoves(b: Board, opening: bool, id: nat, due: nat) {
    && b.claw.enabled && b.claw.forward == opening && b.claw.alarm == id
    && b.claw.state == (if opening then Opening else Closing)
    && id in b.timer.alarms && b.timer.alarms[id] == Alarm(due, ClawFinish(ClawTarget(opening))) && b.now <= due
  }

  /** The step in which it is stopped, at that time and in the position asked for. */
  ghost predicate ClawStops(b: Board, e: Event, opening: bool, id: nat, due: nat)
    requires WellFormed(b)
  {
    && ClawMoves(b, opening, id, due) && b.now == due && e == AlarmFires(id)
    && !Step(b, e).claw.enabled && Step(b, e).claw.state == ClawTarget(opening)
    && Step(b, e) == b.(claw := Step(b, e).claw, timer := CancelAlarm(b.timer, id))
  }

  lemma ClawMovesOn(b: Board, e: Event, opening: bool, id: nat, due: nat)
    requires Inv(b) && ClawMoves(b, opening, id, due) && !Step(b, e).safety.killed
    ensures ClawMoves(Step(b, e), opening, id, due) || (ClawStops(b, e, opening, id, due) && Step(b, e).now == due)
  {
    StepKeeps(b, e);
    if Enabled(b, e) {
      match e
      case Do(command) => ClawMovesOnCommand(b, command, opening, id, due);
      case AlarmFires(other) => if other != id { ClawMovesOnAlarm(b, other, opening, id, due); }
      case _ =>
    }
  }

  /** A command with no kill only adds alarms. */
  lemma CommandKeepsAlarm(b: Board, c: Command, id: nat)
    requires WellFormed(b) && !c.SetKillSwitch? && id in b.timer.alarms && id < b.timer.nextId
    ensures id in Execute(b, c).0.timer.alarms && Execute(b, c).0.timer.alarms[id] == b.timer.alarms[id]
  {}

  lemma CommandKeepsClaw(b: Board, c: Command)
    requires WellFormed(b) && !c.SetKillSwitch? && Moving(b.claw)
    ensures var d := Execute(b, c).0.claw;
      d.enabled == b.claw.enabled && d.forward == b.claw.forward && d.alarm == b.claw.alarm && d.state == b.claw.state
  {}

  lemma SwitchedOnly(b: Board, asserting: bool)
    requires WellFormed(b) && !KillSwitchCommand(b, asserting).safety.killed
    ensures KillSwitchCommand(b, asserting) == b.(safety := KillSwitchCommand(b, asserting).safety)
  {
    if asserting { KillKeepsSafety(b.(safety := KillSwitch.Update(b.safety, 0, asserting, true, b.now))); }
  }

  lemma KillKeepsSafety(b: Board)
    requires WellFormed(b)
    ensures KillAll(b).safety == b.safety
  {
    var c := DisableDropper(b, 0);
    DisableDropperWellFormed(b, 0);
    var d := DisableDropper(c, 1);
    assert c.safety == b.safety && d.safety == b.safety && DisableClaw(d).safety == b.safety;
  }

  lemma ClawMovesOnCommand(b: Board, c: Command, opening: bool, id: nat, due: nat)
    requires Inv(b) && ClawMoves(b, opening, id, due) && !Execute(b, c).0.safety.killed
    ensures ClawMoves(Execute(b, c).0, opening, id, due)
  {
    assert id < b.timer.nextId;
    CommandTakesNoTime(b, c);
    if c.SetKillSwitch? {
      SwitchedOnly(b, c.asserting);
    } else {
      CommandKeepsAlarm(b, c, id);
      CommandKeepsClaw(b, c);
    }
  }

  lemma ClawMovesOnAlarm(b: Board, other: nat, opening: bool, id: nat, due: nat)
    requires Inv(b) && ClawMoves(b, opening, id, due) && other in b.timer.alarms && other != id
    ensures ClawMoves(RunAlarm(b, other), opening, id, due)
  {
    assert b.timer.alarms[other].action.DropFinish?;
  }

  /** It has been stopped somewhere in the run. */
  ghost predicate ClawStopped(b: Board, es: seq<Event>, opening: bool, id: nat, due: nat)
    requires WellFormed(b)
  {
    es != [] && (ClawStops(RunFrom(b, es[..|es| - 1]), es[|es| - 1], opening, id, due)
                 || ClawStopped(b, es[..|es| - 1], opening, id, due))
  }

  lemma {:induction false} ClawServed(b: Board, es: seq<Event>, opening: bool, id: nat, due: nat)
    requires Inv(b) && ClawMoves(b, opening, id, due) && NeverKilled(b, es)
    ensures ClawMoves(RunFrom(b, es), opening, id, due)
      || (ClawStopped(b, es, opening, id, due) && RunFrom(b, es).now >= due)
  {
    if es != [] {
      var init, e := es[..|es| - 1], es[|es| - 1];
      ClawServed(b, init, opening, id, due);
      RunFromKeeps(b, init);
      TimePasses(RunFrom(b, init), e);
      if ClawMoves(RunFrom(b, init), opening, id, due) { ClawMovesOn(RunFrom(b, init), e, opening, id, due); }
    }
  }

  lemma ClawOnTime(c: Board, es: seq<Event>, opening: bool, id: nat, due: nat)
    requires Inv(c) && ClawMoves(c, opening, id, due) && NeverKilled(c, es)
    ensures RunFrom(c, es).now < due ==> ClawMoves(RunFrom(c, es), opening, id, due)
    ensures RunFrom(c, es).now > due ==> ClawStopped(c, es, opening, id, due)
  {
    ClawServed(c, es, opening, id, due);
  }

  function ClawCommand(opening: bool): Command {
    if opening then OpenClaw else CloseClaw
  }

  function ClawDue(b: Board, opening: bool): nat {
    b.now + (if opening then b.claw.openTime else b.claw.closeTime) * MS
  }

  predicate ClawCanMove(b: Board, opening: bool) {
    && !b.safety.killed && b.claw.openTime != 0 && b.claw.closeTime != 0
    && !Moving(b.claw) && b.claw.state != ClawTarget(opening)
  }

  lemma ClawStarts(b: Board, opening: bool)
    requires Inv(b) && ClawCanMove(b, opening)
    ensures ClawMoves(After(b, ClawCommand(opening)), opening, b.timer.nextId, ClawDue(b, opening))
  {}

  /**
   * The claw moves for exactly the time of its direction: in every run without a kill it goes on,
   * in that direction, until that time, whatever else happens; and once time has passed it, the
   * claw has been stopped exactly then, in the position that was asked for.
   */
  lemma ClawMovesForItsTime(b: Board, opening: bool, es: seq<Event>)
    requires Inv(b) && ClawCanMove(b, opening) && NeverKilled(After(b, ClawCommand(opening)), es)
    ensures var c, id, due := After(b, ClawCommand(opening)), b.timer.nextId, ClawDue(b, opening);
      && (RunFrom(c, es).now < due ==> ClawMoves(RunFrom(c, es), opening, id, due))
      && (RunFrom(c, es).now > due ==> ClawStopped(c, es, opening, id, due))
  {
    ExecuteKeeps(b, ClawCommand(opening));
    ClawStarts(b, opening);
    ClawOnTime(After(b, ClawCommand(opening)), es, opening, b.timer.nextId, ClawDue(b, opening));
  }

  // The droppers.

  /** Dropper i is on, and this alarm will stop it at that time. */
  predicate DropperRuns(b: Board, i: nat, id: nat, due: nat) {
    && i < |b.droppers| && b.droppers[i].on && b.droppers[i].dropping && b.droppers[i].stopTimer == id
    && id in b.timer.alarms && b.timer.alarms[id] == Alarm(due, DropFinish(i)) && b.now <= due
  }

  /** The step in which it is stopped, at that time; it then counts as dropped. */
  ghost predicate DropperStops(b: Board, e: Event, i: nat, id: nat, due: nat)
    requires WellFormed(b)
  {
    && DropperRuns(b, i, id, due) && b.now == due && e == AlarmFires(id)
    && !Step(b, e).droppers[i].on && Step(b, e).droppers[i].dropped
    && Step(b, e) == b.(droppers := b.droppers[i := Step(b, e).droppers[i]], timer := CancelAlarm(b.timer, id))
  }

  lemma CommandKeepsDropper(b: Board, c: Command, i: nat)
    requires WellFormed(b) && !c.SetKillSwitch? && i < DROPPERS && b.droppers[i].dropping
    ensures |Execute(b, c).0.droppers| == DROPPERS && Execute(b, c).0.droppers[i] == b.droppers[i]
  {}

  lemma DropperRunsOnCommand(b: Board, c: Command, i: nat, id: nat, due: nat)
    requires Inv(b) && i < DROPPERS && DropperRuns(b, i, id, due) && !Execute(b, c).0.safety.killed
    ensures DropperRuns(Execute(b, c).0, i, id, due)
  {
    assert id < b.timer.nextId;
    CommandTakesNoTime(b, c);
    if c.SetKillSwitch? {
      SwitchedOnly(b, c.asserting);
    } else {
      CommandKeepsAlarm(b, c, id);
      CommandKeepsDropper(b, c, i);
    }
  }

  lemma DropperRunsOnAlarm(b: Board, other: nat, i: nat, id: nat, due: nat)
    requires Inv(b) && i < DROPPERS && DropperRuns(b, i, id, due) && other in b.timer.alarms && other != id
    ensures DropperRuns(RunAlarm(b, other), i, id, due)
  {
    assert DropperSafe(b.droppers[i], i, b.timer);
  }

  lemma DropperRunsOn(b: Board, e: Event, i: nat, id: nat, due: nat)
    requires Inv(b) && i < DROPPERS && DropperRuns(b, i, id, due) && !Step(b, e).safety.killed
    ensures DropperRuns(Step(b, e), i, id, due) || (DropperStops(b, e, i, id, due) && Step(b, e).now == due)
  {
    StepKeeps(b, e);
    if Enabled(b, e) {
      match e
      case Do(command) => DropperRunsOnCommand(b, command, i, id, due);
      case AlarmFires(other) => if other != id { DropperRunsOnAlarm(b, other, i, id, due); }
      case _ =>
    }
  }

  ghost predicate DropperStopped(b: Board, es: seq<Event>, i: nat, id: nat, due: nat)
    requires WellFormed(b)
  {
    es != [] && (DropperStops(RunFrom(b, es[..|es| - 1]), es[|es| - 1], i, id, due)
                 || DropperStopped(b, es[..|es| - 1], i, id, due))
  }

  lemma {:induction false} DropperServed(b: Board, es: seq<Event>, i: nat, id: nat, due: nat)
    requires Inv(b) && i < DROPPERS && DropperRuns(b, i, id, due) && NeverKilled(b, es)
    ensures DropperRuns(RunFrom(b, es), i, id, due)
      || (DropperStopped(b, es, i, id, due) && RunFrom(b, es).now >= due)
  {
    if es != [] {
      var init, e := es[..|es| - 1], es[|es| - 1];
      DropperServed(b, init, i, id, due);
      RunFromKeeps(b, init);
      TimePasses(RunFrom(b, init), e);
      if DropperRuns(RunFrom(b, init), i, id, due) { DropperRunsOn(RunFrom(b, init), e, i, id, due); }
    }
  }

  lemma DropperOnTime(c: Board, es: seq<Event>, i: nat, id: nat, due: nat)
    requires Inv(c) && i < DROPPERS && DropperRuns(c, i, id, due) && NeverKilled(c, es)
    ensures RunFrom(c, es).now < due ==> DropperRuns(RunFrom(c, es), i, id, due)
    ensures RunFrom(c, es).now > due ==> DropperStopped(c, es, i, id, due)
  {
    DropperServed(c, es, i, id, due);
  }

  function DropperDue(b: Board): nat {
    b.now + b.dropTime * MS
  }

  predicate DropperCanDrop(b: Board, num: nat) {
    && !b.safety.killed && b.dropTime != 0 && 1 <= num <= |b.droppers|
    && !b.droppers[num - 1].dropping && !b.droppers[num - 1].dropped
  }

  lemma DropperStarts(b: Board, num: nat)
    requires Inv(b) && DropperCanDrop(b, num)
    ensures DropperRuns(After(b, Drop(num)), num - 1, b.timer.nextId, DropperDue(b)) && Inv(After(b, Drop(num)))
  {
    ExecuteKeeps(b, Drop(num));
  }

  /**
   * A dropper is on for exactly its time: in every run without a kill it stays on until then,
   * whatever else happens; and once time has passed it, the dropper has been stopped exactly
   * then, and counted as dropped.
   */
  lemma DropperOnForItsTime(b: Board, num: nat, es: seq<Event>)
    requires Inv(b) && DropperCanDrop(b, num) && NeverKilled(After(b, Drop(num)), es)
    ensures var c, id, due := After(b, Drop(num)), b.timer.nextId, DropperDue(b);
      && (RunFrom(c, es).now < due ==> DropperRuns(RunFrom(c, es), num - 1, id, due))
      && (RunFrom(c, es).now > due ==> DropperStopped(c, es, num - 1, id, due))
  {
    DropperStarts(b, num);
    DropperOnTime(After(b, Drop(num)), es, num - 1, b.timer.nextId, DropperDue(b));
  }

  // The torpedoes.

  /** All that firing a torpedo takes. */
  predicate ReadyToFire(b: Board, i: nat)
    requires i < |b.torpedoes|
  {
    && !b.safety.killed && b.armed && b.charged && b.active == 0
    && Timed(b.torpedoes[i]) && !b.torpedoes[i].fired
  }

  lemma FireFires(b: Board, num: nat, i: nat)
    requires Inv(b) && i < TORPEDOES
    ensures Fire(b, num).0.torpedoes[i].selected && !b.torpedoes[i].selected <==> num == i + 1 && ReadyToFire(b, i)
    ensures Fire(b, num).0 != b <==> 1 <= num <= TORPEDOES && ReadyToFire(b, num - 1)
  {}

  lemma OthersDoNotFire(b: Board, c: Command, i: nat)
    requires WellFormed(b) && i < TORPEDOES && !c.FireTorpedo? && !c.SetKillSwitch?
    ensures |Execute(b, c).0.torpedoes| == TORPEDOES && Execute(b, c).0.torpedoes[i].selected == b.torpedoes[i].selected
  {}

  lemma CommandFires(b: Board, c: Command, i: nat)
    requires Inv(b) && i < TORPEDOES
    ensures After(b, c).torpedoes[i].selected && !b.torpedoes[i].selected
      <==> c == FireTorpedo(i + 1) && ReadyToFire(b, i)
  {
    match c
    case FireTorpedo(num) => FireFires(b, num, i);
    case SetKillSwitch(asserting) => if asserting { KillTakesEffect(b); }
    case _ => OthersDoNotFire(b, c, i);
  }

  lemma StepFires(b: Board, e: Event, i: nat)
    requires Inv(b) && i < TORPEDOES
    ensures |Step(b, e).torpedoes| == TORPEDOES
    ensures Step(b, e).torpedoes[i].selected && !b.torpedoes[i].selected
      <==> e == Do(FireTorpedo(i + 1)) && ReadyToFire(b, i)
  {
    StepWellFormed(b, e);
    if Enabled(b, e) {
      match e
      case Do(command) => CommandFires(b, command, i);
      case Tick => KillAllOff(b.(safety := Refresh(b.safety, b.now)));
      case _ =>
    }
  }

  /** In every run: whatever happens next, a torpedo starts to fire exactly if it is the command to fire it, and all conditions hold. */
  lemma FiresExactlyWhen(es: seq<Event>, e: Event, i: nat)
    requires i < TORPEDOES
    ensures Run(es + [e]).torpedoes[i].selected && !Run(es).torpedoes[i].selected
      <==> e == Do(FireTorpedo(i + 1)) && ReadyToFire(Run(es), i)
  {
    RunKeeps(es);
    RunOne(Start(), es, e);
    StepFires(Run(es), e, i);
  }

  /** While a torpedo fires it cannot be disarmed or retimed, and no other can be fired. */
  lemma FiringRefuses(b: Board, num: nat, kind: nat, time: nat)
    requires Inv(b) && b.active != 0
    ensures Disarm(b) == (b, Failed) && TorpedoTiming(b, b.active, kind, time) == (b, Failed)
    ensures num != b.active ==> Fire(b, num) == (b, Failed)
    ensures Fired(b).active == 0 && Fired(b).torpedoes[b.active - 1].fired && !Fired(b).torpedoes[b.active - 1].selected
  {}

  /** A torpedo is firing, as it was when it started. */
  predicate Fires(b: Board, t: Torpedo, num: nat) {
    1 <= num <= |b.torpedoes| && b.active == num && b.armed && b.sequencing && b.torpedoes[num - 1] == t
  }

  lemma FiresOnCommand(b: Board, c: Command, t: Torpedo, num: nat)
    requires Inv(b) && Fires(b, t, num) && !Execute(b, c).0.safety.killed
    ensures Fires(Execute(b, c).0, t, num)
  {}

  lemma FiresOn(b: Board, e: Event, t: Torpedo, num: nat)
    requires Inv(b) && Fires(b, t, num) && e != SequenceDone && !Step(b, e).safety.killed
    ensures Fires(Step(b, e), t, num)
  {
    if Enabled(b, e) && e.Do? { FiresOnCommand(b, e.command, t, num); }
  }

  /**
   * A shot is undisturbed: in every run without a kill and before the coil program ends, the same
   * torpedo stays active and armed, with its times unchanged and counted once.
   */
  lemma {:induction false} FiringIsUndisturbed(b: Board, es: seq<Event>)
    requires Inv(b) && b.active != 0 && NeverKilled(b, es) && SequenceDone !in es
    ensures Fires(RunFrom(b, es), b.torpedoes[b.active - 1], b.active)
  {
    if es != [] {
      var init, e := es[..|es| - 1], es[|es| - 1];
      FiringIsUndisturbed(b, init);
      RunFromKeeps(b, init);
      FiresOn(RunFrom(b, init), e, b.torpedoes[b.active - 1], b.active);
    }
  }
}
