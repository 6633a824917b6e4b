/**
 * The drivers of the actuator board, updated in place by commands, ticks, alarms and interrupts;
 * each of these keeps the invariant of the board.
 */
module ActuatorBoard {
  import opened ActuatorBoardProofs
  import opened ActuatorBoardSpec
  import opened KillSwitch
  import opened KillSwitchLibrary

  class Drivers {
    const switches: KillSwitches
    var claw: Claw
    var dropTime: nat
    const droppers: array<Dropper>
    const torpedoes: array<Torpedo>
    var active: nat
    var armed: bool
    var sequencing: bool
    var charged: bool
    var timer: Timer
    var now: nat

    ghost function Abs(): Board
      reads this, switches, switches.states, droppers, torpedoes
    {
      Board(switches.State(), claw, dropTime, droppers[..], torpedoes[..], active, armed, sequencing, charged, timer, now)
    }

    ghost predicate Valid()
      reads this, switches, switches.states, droppers, torpedoes
    {
      WellFormed(Abs())
    }

    constructor ()
      ensures Inv(Abs()) && Abs() == Start()
    {
      switches := new KillSwitches(1);
      claw := Claw(UnknownPosition, 0, 0, 0, false, false);
      droppers := new Dropper[DROPPERS](_ => Dropper(false, false, 0, false));
      torpedoes := new Torpedo[TORPEDOES](_ => Torpedo(seq(TIMINGS, _ => 0), false, false, 0));
      dropTime, active, armed, sequencing, charged := 0, 0, false, false, false;
      timer, now := Timer(map[], 1), 0;
      new;
      switches.Initialize(now);
      StartKeeps();
      assert Abs().safety == Start().safety && Abs().droppers == Start().droppers && Abs().torpedoes == Start().torpedoes;
    }

    method ScheduleAlarm(ms: nat, action: Action) returns (id: nat)
      modifies this`timer
      ensures id == old(timer).nextId && timer == AddAlarm(old(timer), now + ms * MS, action)
    {
      id := timer.nextId;
      timer := AddAlarm(timer, now + ms * MS, action);
    }

    // ---- Claw ----

    method ClawDriverMove(forward: bool)
      modifies this`claw
      ensures claw == old(claw).(forward := forward, enabled := true)
    {
      claw := claw.(forward := forward);
      claw := claw.(enabled := true);
    }

    /** The motor starts, and an alarm will stop it. */
    method ClawStartMove(state: ClawState, ms: nat, target: ClawState, forward: bool)
      modifies this`claw, this`timer
      ensures claw == old(claw).(state := state, alarm := old(timer).nextId, enabled := true, forward := forward)
      ensures timer == AddAlarm(old(timer), now + ms * MS, ClawFinish(target))
    {
      claw := claw.(state := state);
      var id := ScheduleAlarm(ms, ClawFinish(target));
      claw := claw.(alarm := id);
      ClawDriverMove(forward);
    }

    method ClawStopInternal(target: ClawState)
      modifies this`claw
      ensures claw == StopClaw(old(claw), target)
    {
      claw := claw.(forward := false);
      claw := claw.(enabled := false);
      claw := claw.(alarm := 0);
      claw := claw.(state := target);
    }

    method ClawSetTimings(open: nat, close: nat) returns (r: Result)
      requires Inv(Abs())
      modifies this`claw
      ensures Inv(Abs()) && (Abs(), r) == ClawTimings(old(Abs()), open, close)
    {
      ExecuteKeeps(Abs(), SetClawTiming(open, close));
      if open == 0 || close == 0 { return Failed; }
      claw := claw.(openTime := open, closeTime := close);
      return Successful;
    }

    method ClawOpen() returns (r: Result)
      requires Inv(Abs())
      modifies this`claw, this`timer
      ensures Inv(Abs()) && (Abs(), r) == MoveClaw(old(Abs()), true)
    {
      ExecuteKeeps(Abs(), OpenClaw);
      if switches.assertingKill { return Failed; }
      if claw.openTime == 0 || claw.closeTime == 0 { return Failed; }
      match claw.state {
        case Opened => return Successful;
        case Opening => return Running;
        case Closing => return Failed;
        case UnknownPosition =>
        case Closed =>
      }
      ClawStartMove(Opening, claw.openTime, Opened, true);
      return Running;
    }

    method ClawClose() returns (r: Result)
      requires Inv(Abs())
      modifies this`claw, this`timer
      ensures Inv(Abs()) && (Abs(), r) == MoveClaw(old(Abs()), false)
    {
      ExecuteKeeps(Abs(), CloseClaw);
      if switches.assertingKill { return Failed; }
      if claw.openTime == 0 || claw.closeTime == 0 { return Failed; }
      match claw.state {
        case Closed => return Successful;
        case Closing => return Running;
        case Opening => return Failed;
        case UnknownPosition =>
        case Opened =>
      }
      ClawStartMove(Closing, claw.closeTime, Closed, false);
      return Running;
    }

    method ClawSafetyDisable()
      modifies this`claw, this`timer
      ensures Abs() == DisableClaw(old(Abs()))
    {
      if claw.state == Opening || claw.state == Closing {
        timer := CancelAlarm(timer, claw.alarm);
        ClawStopInternal(UnknownPosition);
      }
    }

    // ---- Droppers ----

    method DropperStopInternal(i: nat)
      requires Valid() && i < DROPPERS
      modifies droppers
      ensures Abs() == old(Abs()).(droppers := old(droppers[..])[i := StopDropper(old(droppers[i]))])
    {
      droppers[i] := droppers[i].(dropped := true, dropping := false, stopTimer := 0);
      droppers[i] := droppers[i].(on := false);
    }

    method DropperSetTimings(time: nat) returns (r: Result)
      requires Inv(Abs())
      modifies this`dropTime
      ensures Inv(Abs()) && (Abs(), r) == DropperTiming(old(Abs()), time)
    {
      ExecuteKeeps(Abs(), SetDropperTiming(time));
      if time == 0 { return Failed; }
      dropTime := time;
      return Successful;
    }

    method DropperDropMarker(num: nat) returns (r: Result)
      requires Inv(Abs())
      modifies droppers, this`timer
      ensures Inv(Abs()) && (Abs(), r) == DropMarker(old(Abs()), num)
    {
      ExecuteKeeps(Abs(), Drop(num));
      if num == 0 || num > DROPPERS { return Failed; }
      if switches.assertingKill { return Failed; }
      if dropTime == 0 { return Failed; }
      var d := droppers[num - 1];
      if d.dropping { return Running; }
      if d.dropped { return Successful; }
      var id := ScheduleAlarm(dropTime, DropFinish(num - 1));
      droppers[num - 1] := d.(dropping := true, stopTimer := id, on := true);
      return Running;
    }

    method DropperClearStatus() returns (r: Result)
      requires Inv(Abs())
      modifies droppers
      ensures Inv(Abs()) && (Abs(), r) == ClearDroppers(old(Abs()))
    {
      ExecuteKeeps(Abs(), ClearDropperStatus);
      r := Successful;
      for i := 0 to DROPPERS
        invariant forall k :: 0 <= k < DROPPERS ==>
          droppers[k] == if k < i then Cleared(old(droppers[k])) else old(droppers[k])
        invariant r == Failed || r == Successful
        invariant r == Failed <==> exists k :: 0 <= k < i && old(droppers[..])[k].dropping
      {
        if droppers[i].dropping {
          r := Failed;
        } else if droppers[i].dropped {
          droppers[i] := droppers[i].(dropped := false);
        }
      }
      assert droppers[..] == ClearDroppers(old(Abs())).0.droppers;
    }

    method DropperSafetyDisable()
      requires Valid()
      modifies droppers, this`timer
      ensures Valid() && Abs() == DisableDropper(DisableDropper(old(Abs()), 0), 1)
    {
      DropperDisable(0);
      DropperDisable(1);
    }

    /** One round of the loop over the droppers. */
    method DropperDisable(i: nat)
      requires Valid() && i < DROPPERS
      modifies droppers, this`timer
      ensures Valid() && Abs() == DisableDropper(old(Abs()), i)
    {
      if droppers[i].dropping {
        timer := CancelAlarm(timer, droppers[i].stopTimer);
        DropperStopInternal(i);
      }
    }

    // ---- Torpedoes ----

    method TorpedoSetTimings(num: nat, kind: nat, time: nat) returns (r: Result)
      requires Inv(Abs())
      modifies torpedoes
      ensures Inv(Abs()) && (Abs(), r) == TorpedoTiming(old(Abs()), num, kind, time)
    {
      ExecuteKeeps(Abs(), SetTorpedoTiming(num, kind, time));
      if num < 1 || num > TORPEDOES { return Failed; }
      if kind >= TIMINGS { return Failed; }
      var compensation := if kind % 2 == 0 then ON_SUBTRACT else OFF_SUBTRACT;
      if time < compensation { return Failed; }
      if active == num { return Failed; }
      var t := torpedoes[num - 1];
      torpedoes[num - 1] := t.(timings := t.timings[kind := time - compensation]);
      return Successful;
    }

    method AllTimed(num: nat) returns (timed: bool)
      requires Valid() && 1 <= num <= TORPEDOES
      ensures timed == Timed(torpedoes[num - 1])
    {
      var timings := torpedoes[num - 1].timings;
      for i := 0 to TIMINGS
        invariant forall k :: 0 <= k < i ==> timings[k] != 0
      {
        if timings[i] == 0 { return false; }
      }
      return true;
    }

    method TorpedoFire(num: nat) returns (r: Result)
      requires Inv(Abs())
      modifies torpedoes, this`active, this`sequencing
      ensures Inv(Abs()) && (Abs(), r) == Fire(old(Abs()), num)
    {
      ExecuteKeeps(Abs(), FireTorpedo(num));
      if num == 0 || num > TORPEDOES { return Failed; }
      if switches.assertingKill { return Failed; }
      if active != 0 && active != num { return Failed; }
      var timed := AllTimed(num);
      if !timed || !armed { return Failed; }
      if active == num { return Running; }
      if torpedoes[num - 1].fired { return Successful; }
      if !charged { return Failed; }
      torpedoes[num - 1] := torpedoes[num - 1].(selected := true, shots := torpedoes[num - 1].shots + 1);
      active := num;
      sequencing := true;
      return Running;
    }

    method TorpedoArm() returns (r: Result)
      requires Inv(Abs())
      modifies torpedoes, this`armed
      ensures Inv(Abs()) && (Abs(), r) == Arm(old(Abs()))
    {
      ExecuteKeeps(Abs(), ArmTorpedo);
      if switches.assertingKill { return Failed; }
      if armed { return Successful; }
      for i := 0 to TORPEDOES
        invariant forall k :: 0 <= k < TORPEDOES ==>
          torpedoes[k] == if k < i then Rearmed(old(torpedoes[k])) else old(torpedoes[k])
      {
        torpedoes[i] := torpedoes[i].(fired := false, shots := 0);
      }
      armed := true;
      assert torpedoes[..] == Arm(old(Abs())).0.torpedoes;
      return Successful;
    }

    method TorpedoDisarm() returns (r: Result)
      requires Inv(Abs())
      modifies this`armed
      ensures Inv(Abs()) && (Abs(), r) == Disarm(old(Abs()))
    {
      ExecuteKeeps(Abs(), DisarmTorpedo);
      if active != 0 { return Failed; }
      if !armed { return Successful; }
      armed := false;
      return Successful;
    }

    method TorpedoFiredCallback()
      requires Inv(Abs()) && active != 0
      modifies torpedoes, this`active, this`sequencing
      ensures Inv(Abs()) && Abs() == Fired(old(Abs()))
    {
      StepKeeps(Abs(), SequenceDone);
      sequencing := false;
      torpedoes[active - 1] := torpedoes[active - 1].(selected := false);
      torpedoes[active - 1] := torpedoes[active - 1].(fired := true);
      active := 0;
    }

    method TorpedoSafetyDisable()
      requires Valid()
      modifies torpedoes, this`active, this`sequencing, this`armed
      ensures Abs() == DisableTorpedoes(old(Abs()))
    {
      if active != 0 {
        torpedoes[active - 1] := torpedoes[active - 1].(fired := true);
        active := 0;
      }
      sequencing := false;
      ghost var marked := torpedoes[..];
      for i := 0 to TORPEDOES
        invariant active == 0 && !sequencing
        invariant forall k :: 0 <= k < TORPEDOES ==>
          torpedoes[k] == if k < i then marked[k].(selected := false) else marked[k]
      {
        torpedoes[i] := torpedoes[i].(selected := false);
      }
      armed := false;
      assert marked == MarkFired(old(torpedoes[..]), old(active));
      assert torpedoes[..] == DisableTorpedoes(old(Abs())).torpedoes;
    }

    // ---- Kill and dispatch ----

    /** The order of the source: droppers, claw, torpedoes. Nothing is on afterwards, and nothing will be stopped later. */
    method KillRobot()
      requires Core(Abs())
      modifies this`claw, this`timer, this`active, this`sequencing, this`armed, droppers, torpedoes
      ensures Abs() == KillAll(old(Abs()))
      ensures AllOff(Abs()) && timer.alarms == map[]
    {
      KillAllOff(Abs());
      DropperSafetyDisable();
      ClawSafetyDisable();
      TorpedoSafetyDisable();
    }

    /** The kill command, and the end of its message. */
    method KillSwitchUpdate(asserting: bool)
      requires Inv(Abs())
      modifies switches`assertingKill, switches`lastChange, switches.states
      modifies this`claw, this`timer, this`active, this`sequencing, this`armed, droppers, torpedoes
      ensures Inv(Abs()) && Abs() == KillSwitchCommand(old(Abs()), asserting)
      ensures asserting ==> AllOff(Abs()) && timer.alarms == map[]
    {
      KillSwitchKeeps(Abs(), asserting);
      ghost var before := Abs();
      var notice := switches.KillSwitchUpdate(0, asserting, true, now);
      if notice == Notice.KillRobot {
        SafetyKeepsCore(before, switches.State());
        KillRobot();
      }
    }

    method Tick()
      requires Inv(Abs())
      modifies switches`assertingKill, switches`lastChange
      modifies this`claw, this`timer, this`active, this`sequencing, this`armed, droppers, torpedoes
      ensures Inv(Abs()) && Abs() == ActuatorBoardSpec.SafetyTick(old(Abs()))
      ensures MustKill(switches.states[..], now) ==> AllOff(Abs()) && timer.alarms == map[]
    {
      TickKeeps(Abs());
      RefreshExact(switches.State(), now);
      ghost var before := Abs();
      var notice := switches.RefreshKillSwitches(now);
      if notice == Notice.KillRobot {
        SafetyKeepsCore(before, switches.State());
        KillRobot();
      }
    }

    method AlarmCallback(id: nat)
      requires Inv(Abs()) && id in timer.alarms
      modifies this`claw, this`timer, droppers
      ensures Inv(Abs()) && Abs() == RunAlarm(old(Abs()), id)
    {
      AlarmKeeps(Abs(), id);
      var action := timer.alarms[id].action;
      timer := CancelAlarm(timer, id);
      match action {
        case ClawFinish(target) => ClawStopInternal(target);
        case DropFinish(i) => if i < DROPPERS { DropperStopInternal(i); }
      }
    }

    method Dispatch(c: Command) returns (r: Result)
      requires Inv(Abs())
      modifies this, switches`assertingKill, switches`lastChange, switches.states, droppers, torpedoes
      ensures Inv(Abs()) && (Abs(), r) == Execute(old(Abs()), c)
    {
      match c {
        case GetStatus => r := Successful;
        case OpenClaw => r := ClawOpen();
        case CloseClaw => r := ClawClose();
        case SetClawTiming(open, close) => r := ClawSetTimings(open, close);
        case ArmTorpedo => r := TorpedoArm();
        case DisarmTorpedo => r := TorpedoDisarm();
        case FireTorpedo(num) => r := TorpedoFire(num);
        case SetTorpedoTiming(num, kind, time) => r := TorpedoSetTimings(num, kind, time);
        case Drop(num) => r := DropperDropMarker(num);
        case ClearDropperStatus => r := DropperClearStatus();
        case SetDropperTiming(time) => r := DropperSetTimings(time);
        case SetKillSwitch(asserting) => KillSwitchUpdate(asserting); r := Successful;
      }
    }
  }

  lemma SafetyKeepsCore(b: Board, s: Safety)
    requires Core(b) && |s.switches| == 1 && s.initialized
    ensures Core(b.(safety := s))
  {}
}
