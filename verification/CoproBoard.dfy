/**
 * The coprocessor's thruster driver and kill report, updated in place; the kill switches are
 * those of the safety library. Each public method is one step of the specification.
 */
module CoproBoard {
  import opened Common
  import opened KillSwitch
  import opened KillSwitchLibrary
  import opened CoproSafety

  class Board {
    const switches: KillSwitches
    const physical: nat

    const thrusterLevels: array<nat>
    var escInitialized: bool
    var timeoutAlarm: Option<nat>       // when the pending timeout alarm is due
    var thrustersAllowed: nat
    var lowBatteryDisable: bool

    var link: Link
    var now: nat

    ghost var lastCommand: nat          // when the thrusters last accepted a command
    ghost var owners: Owners            // who last asserted each switch by software

    ghost predicate Valid()
      reads this, switches, switches.states, thrusterLevels
    {
      thrusterLevels.Length == THRUSTERS && Inv(Abs())
    }

    ghost function EscState(): Esc
      reads this`escInitialized, this`timeoutAlarm, this`thrustersAllowed, this`lowBatteryDisable, thrusterLevels
    {
      Esc(escInitialized, thrusterLevels[..], timeoutAlarm, thrustersAllowed, lowBatteryDisable)
    }

    ghost function Abs(): Copro
      reads this, switches, switches.states, thrusterLevels
    {
      Copro(switches.State(), EscState(), link, now, physical, lastCommand, owners)
    }

    constructor (switches: nat, physical: nat)
      ensures Valid() && fresh(this.switches) && fresh(this.switches.states) && fresh(thrusterLevels)
      ensures Abs() == Start(switches, physical)
    {
      this.switches := new KillSwitches(switches);
      thrusterLevels := new nat[THRUSTERS](_ => NEUTRAL);
      this.physical := physical;
      escInitialized, timeoutAlarm, thrustersAllowed, lowBatteryDisable := false, None, 0, false;
      link, now := Link(false, false, false, false, None, false), 0;
      lastCommand, owners := 0, map[];
      new;
      assert thrusterLevels[..] == AllNeutral();
      StartKeeps(switches, physical);
    }

    // ---- Thrusters ----

    /** May be called at any time, so it does nothing until the thrusters are initialized. */
    method StopThrusters()
      requires thrusterLevels.Length == THRUSTERS
      modifies thrusterLevels, this`timeoutAlarm
      ensures EscState() == Stop(old(EscState()))
    {
      if escInitialized {
        for i := 0 to THRUSTERS
          invariant thrusterLevels[..i] == AllNeutral()[..i]
        {
          thrusterLevels[i] := NEUTRAL;
        }
        assert thrusterLevels[..] == thrusterLevels[..THRUSTERS];
        timeoutAlarm := None;
      }
    }

    /** The alarm that stops thrusters which get no more commands. */
    method UpdateTimeout()
      requires Valid() && Enabled(Abs(), TimeoutAlarm)
      modifies thrusterLevels, this`timeoutAlarm, this`thrustersAllowed
      ensures Valid() && Abs() == Step(old(Abs()), TimeoutAlarm) && Neutral(thrusterLevels[..])
    {
      StepKeeps(Abs(), TimeoutAlarm);
      StopSafe(Abs());
      StopThrusters();
      thrustersAllowed := now + UPDATE_DISABLE_US;
    }

    /** Sets the levels one by one; at the first one out of range it stops all thrusters. */
    method SetLevels(pwm: seq<nat>) returns (ok: bool, needsTimeout: bool)
      requires thrusterLevels.Length == THRUSTERS && |pwm| == THRUSTERS && escInitialized && timeoutAlarm == None
      modifies thrusterLevels, this`timeoutAlarm
      ensures ok == ValidCommand(pwm) && (ok ==> needsTimeout == !Neutral(pwm))
      ensures EscState() == if ok then old(EscState()).(levels := pwm) else Stop(old(EscState()))
    {
      needsTimeout := false;
      for i := 0 to THRUSTERS
        invariant thrusterLevels[..i] == pwm[..i]
        invariant forall k :: 0 <= k < i ==> InRange(pwm[k])
        invariant needsTimeout == !Neutral(pwm[..i])
        invariant escInitialized && timeoutAlarm == None
      {
        if pwm[i] < 1100 || pwm[i] > 1900 {
          StopThrusters();
          return false, needsTimeout;
        }
        NeutralGrows(pwm, i);
        if pwm[i] != NEUTRAL { needsTimeout := true; }
        thrusterLevels[i] := pwm[i];
      }
      assert thrusterLevels[..] == thrusterLevels[..THRUSTERS] && pwm[..THRUSTERS] == pwm;
      return true, needsTimeout;
    }

    method Command(pwm: seq<nat>)
      requires thrusterLevels.Length == THRUSTERS && |pwm| == THRUSTERS && escInitialized
      modifies thrusterLevels, this`timeoutAlarm
      ensures EscState() == CoproSafety.Command(old(EscState()), switches.State(), pwm, now)
    {
      if switches.assertingKill { return; }
      timeoutAlarm := None;
      if now < thrustersAllowed { return; }
      if now - switches.lastChange < WAKEUP_DELAY_US { return; }
      if lowBatteryDisable { return; }
      var ok, needsTimeout := SetLevels(pwm);
      if ok && needsTimeout {
        timeoutAlarm := Some(now + MIN_UPDATE_RATE_US);
      }
    }

    method UpdateThrusters(pwm: seq<nat>)
      requires Valid() && Enabled(Abs(), ThrusterCommand(pwm))
      modifies thrusterLevels, this`timeoutAlarm, this`lastCommand
      ensures Valid() && Abs() == Step(old(Abs()), ThrusterCommand(pwm))
    {
      StepKeeps(Abs(), ThrusterCommand(pwm));
      ghost var accepted := Accepted(Abs(), pwm);
      Command(pwm);
      if accepted { lastCommand := now; }
    }

    method SetLowBattery(low: bool)
      requires Valid()
      modifies thrusterLevels, this`timeoutAlarm, this`lowBatteryDisable
      ensures Valid() && Abs() == Step(old(Abs()), BatteryState(low)) && (low ==> Neutral(thrusterLevels[..]))
    {
      StepKeeps(Abs(), BatteryState(low));
      StopSafe(Abs());
      lowBatteryDisable := low;
      if low { StopThrusters(); }
    }

    // ---- The kill report ----

    method SendReport()
      modifies this`link
      ensures link == Send(old(link), switches.assertingKill)
    {
      link := link.(needsRefresh := false);
      link := link.(value := switches.assertingKill);
      link := link.(inUse := true);
    }

    method KillReportRefresh()
      modifies this`link
      ensures link == Report(old(link), switches.assertingKill)
    {
      if !link.initialized { return; }
      if link.inUse {
        link := link.(needsRefresh := true);
      } else {
        SendReport();
      }
    }

    /** The end of a report: only a success looks whether a newer state is waiting. */
    method ReportDone(end: Ending)
      requires Valid() && Enabled(Abs(), ReportEnded(end))
      modifies this`link
      ensures Valid() && Abs() == Step(old(Abs()), ReportEnded(end))
    {
      StepKeeps(Abs(), ReportEnded(end));
      var keep := false;
      link := link.(last := Some(end));
      if end == Success {
        link := link.(reported := link.value);
        if link.needsRefresh {
          SendReport();
          keep := true;
        }
      }
      if !keep { link := link.(inUse := false); }
    }

    /** A good status of the actuator board repeats the report. */
    method StatusReceived()
      requires Valid() && Enabled(Abs(), StatusArrived)
      modifies this`link
      ensures Valid() && Abs() == Step(old(Abs()), StatusArrived)
    {
      StepKeeps(Abs(), StatusArrived);
      if !link.inUse { SendReport(); }
    }

    // ---- Kill switches ----

    /** What the board does when the safety library tells it that the state has changed. */
    method Notified(notice: Notice)
      requires thrusterLevels.Length == THRUSTERS
      modifies thrusterLevels, this`timeoutAlarm, this`link
      ensures EscState() == if notice == KillRobot then Stop(old(EscState())) else old(EscState())
      ensures link == if notice == Nothing then old(link) else Report(old(link), switches.assertingKill)
    {
      match notice {
        case Nothing =>
        case KillRobot =>
          StopThrusters();
          KillReportRefresh();
        case EnableRobot => KillReportRefresh();
      }
    }

    method SafetyTick()
      requires Valid()
      modifies switches`assertingKill, switches`lastChange, thrusterLevels, this`timeoutAlarm, this`link
      ensures Valid() && Abs() == Step(old(Abs()), Tick)
      ensures switches.initialized ==> switches.assertingKill == MustKill(switches.states[..], now)
      ensures switches.assertingKill != old(switches.assertingKill) ==> switches.lastChange == now
      ensures switches.assertingKill ==> Neutral(thrusterLevels[..])
    {
      StepKeeps(Abs(), Tick);
      KillStopsThrusters(Abs(), Tick);
      if switches.initialized {
        var notice := switches.RefreshKillSwitches(now);
        Notified(notice);
      }
    }

    method KillSwitchUpdate(i: nat, asserting: bool, needsUpdate: bool)
      requires Valid() && i < switches.states.Length
      modifies switches`assertingKill, switches`lastChange, switches.states, thrusterLevels, this`timeoutAlarm, this`link
      ensures Valid() && Abs() == Step(old(Abs()), SwitchUpdate(i, asserting, needsUpdate))
      ensures switches.initialized && asserting ==> Neutral(thrusterLevels[..])
    {
      StepKeeps(Abs(), SwitchUpdate(i, asserting, needsUpdate));
      KillStopsThrusters(Abs(), SwitchUpdate(i, asserting, needsUpdate));
      var notice := switches.KillSwitchUpdate(i, asserting, needsUpdate, now);
      Notified(notice);
    }

    /** Puts the lock on a switch that is asserted, and updates it. */
    method LockAndUpdate(m: Message)
      requires thrusterLevels.Length == THRUSTERS && FramesSized(switches.State())
      requires !Refused(switches.State(), physical, m)
      modifies switches`assertingKill, switches`lastChange, switches.states, thrusterLevels, this`timeoutAlarm, this`link
      ensures switches.State() == OnMessage(old(switches.State()), physical, m, now)
      ensures EscState() == EscNotified(old(EscState()), switches.initialized && m.asserting)
      ensures link == if switches.initialized && m.asserting then Report(old(link), true) else old(link)
    {
      var entry := switches.states[m.id];
      if m.asserting {
        switches.states[m.id] := entry.(frame := Locked(entry.frame, m.sender));
      }
      ghost var locked := switches.State();
      assert locked == old(switches.State()).(switches := old(switches.states[..])[m.id := locked.switches[m.id]]);
      var notice := switches.KillSwitchUpdate(m.id, m.asserting, m.needsUpdate, now);
      Notified(notice);
    }

    /** The three grounds on which a message is refused. */
    method RefuseMessage(m: Message) returns (refused: bool)
      ensures refused == Refused(switches.State(), physical, m)
    {
      if m.id >= switches.states.Length || m.id == physical { return true; }
      if |m.sender| >= FRAME_SIZE { return true; }
      var entry := switches.states[m.id];
      if entry.enabled && entry.asserting && !m.asserting && !StrnEqual(entry.frame, m.sender, FRAME_SIZE) { return true; }
      return false;
    }

    /** A kill message of a node. */
    method SoftwareKillCallback(m: Message)
      requires Valid()
      modifies switches`assertingKill, switches`lastChange, switches.states
      modifies thrusterLevels, this`timeoutAlarm, this`link, this`owners
      ensures Valid() && Abs() == Step(old(Abs()), SoftwareKill(m))
    {
      StepKeeps(Abs(), SoftwareKill(m));
      var refused := RefuseMessage(m);
      if !refused {
        owners := NewOwners(switches.State(), physical, m, owners);
        LockAndUpdate(m);
      }
    }
  }

  lemma NeutralGrows(pwm: seq<nat>, i: nat)
    requires i < |pwm|
    ensures Neutral(pwm[..i + 1]) <==> Neutral(pwm[..i]) && pwm[i] == NEUTRAL
  {
    if Neutral(pwm[..i + 1]) {
      assert pwm[..i + 1][i] == NEUTRAL;
      assert forall k :: 0 <= k < i ==> pwm[..i][k] == pwm[..i + 1][k];
    }
  }
}
