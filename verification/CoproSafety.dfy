/**
 * What the kill state guards on the coprocessor: the thrusters with their timeout alarm,
 * and the kill report to the actuator board. Times are in microseconds.
 */
module CoproSafety {
  import opened Common
  import opened KillSwitch

  const THRUSTERS: nat := 8
  const NEUTRAL: nat := 1500
  const MIN_UPDATE_RATE_US: nat := 1_000_000
  const UPDATE_DISABLE_US: nat := 1_000_000
  const WAKEUP_DELAY_US: nat := 5_000_000

  // ---- Thrusters ----

  datatype Esc = Esc(initialized: bool, levels: seq<nat>, alarm: Option<nat>, allowed: nat, lowBattery: bool)

  function AllNeutral(): seq<nat> {
    seq(THRUSTERS, _ => NEUTRAL)
  }

  function Stop(e: Esc): Esc {
    if e.initialized then e.(levels := AllNeutral(), alarm := None) else e
  }

  predicate InRange(v: nat) {
    1100 <= v <= 1900
  }

  predicate ValidCommand(pwm: seq<nat>) {
    |pwm| == THRUSTERS && forall i :: 0 <= i < |pwm| ==> InRange(pwm[i])
  }

  predicate Neutral(levels: seq<nat>) {
    forall i :: 0 <= i < |levels| ==> levels[i] == NEUTRAL
  }

  /** The early returns after the alarm has been cancelled. */
  predicate Held(e: Esc, lastChange: nat, now: nat) {
    now < e.allowed || now - lastChange < WAKEUP_DELAY_US || e.lowBattery
  }

  function Command(e: Esc, s: Safety, pwm: seq<nat>, now: nat): Esc {
    if s.killed then e
    else if Held(e, s.lastChange, now) then e.(alarm := None)
    else if !ValidCommand(pwm) then Stop(e.(alarm := None))
    else e.(levels := pwm, alarm := if Neutral(pwm) then None else Some(now + MIN_UPDATE_RATE_US))
  }

  function Timeout(e: Esc, now: nat): Esc {
    Stop(e).(allowed := now + UPDATE_DISABLE_US)
  }

  function LowBattery(e: Esc, low: bool): Esc {
    var f := e.(lowBattery := low);
    if low then Stop(f) else f
  }

  // ---- The report to the actuator board ----

  datatype Ending = Success | NoSuccess | BadChecksum | Failure

  /** The command slot; `last` is how the last report ended, `reported` the value of the last that succeeded. */
  datatype Link = Link(initialized: bool, inUse: bool, value: bool, needsRefresh: bool, last: Option<Ending>, reported: bool)

  function Send(l: Link, killed: bool): Link {
    l.(inUse := true, value := killed, needsRefresh := false)
  }

  function Report(l: Link, killed: bool): Link {
    if !l.initialized then l
    else if l.inUse then l.(needsRefresh := true)
    else Send(l, killed)
  }

  /** A good status of the board repeats the report, unless one is under way. */
  function OnStatus(l: Link, killed: bool): Link {
    if l.inUse then l else Send(l, killed)
  }

  function OnEnd(l: Link, end: Ending, killed: bool): Link {
    var m := l.(last := Some(end), reported := if end == Success then l.value else l.reported);
    if end == Success && l.needsRefresh then Send(m, killed) else m.(inUse := false)
  }

  // ---- The board ----

  /** `lastCommand` is when the thrusters last accepted a command, `owners` who last asserted each switch by software. */
  datatype Copro = Copro(safety: Safety, esc: Esc, link: Link, now: nat, physical: nat, lastCommand: nat, owners: Owners)

  datatype Event =
    | Pass(us: nat)
    | SwitchUpdate(i: nat, asserting: bool, needsUpdate: bool)
    | SoftwareKill(m: Message)
    | Tick
    | ThrusterCommand(pwm: seq<nat>)
    | TimeoutAlarm
    | BatteryState(low: bool)
    | StatusArrived
    | ReportEnded(end: Ending)
    | InitSafety
    | InitThrusters
    | InitLink

  /** Alarms are punctual: time does not pass a pending alarm. */
  predicate Enabled(c: Copro, e: Event) {
    match e
    case Pass(us) => c.esc.alarm.Some? ==> c.now + us <= c.esc.alarm.value
    case SwitchUpdate(i, _, _) => i < |c.safety.switches|
    case ThrusterCommand(pwm) => c.esc.initialized && c.safety.initialized && |pwm| == THRUSTERS
    case TimeoutAlarm => c.esc.alarm == Some(c.now)
    case StatusArrived => c.link.initialized && c.safety.initialized
    case ReportEnded(_) => c.link.inUse
    case InitSafety => !c.safety.initialized
    case InitThrusters => !c.esc.initialized
    case InitLink => !c.link.initialized
    case _ => true
  }

  /** What the kill and enable notifications of the safety library do to the thrusters and to the report. */
  function EscNotified(e: Esc, kills: bool): Esc {
    if kills then Stop(e) else e
  }

  function LinkNotified(l: Link, before: Safety, after: Safety, kills: bool): Link {
    if kills || (before.killed && !after.killed) then Report(l, after.killed) else l
  }

  function Notify(c: Copro, before: Safety, kills: bool): Copro {
    c.(esc := EscNotified(c.esc, kills), link := LinkNotified(c.link, before, c.safety, kills))
  }

  predicate Accepted(c: Copro, pwm: seq<nat>) {
    !c.safety.killed && !Held(c.esc, c.safety.lastChange, c.now) && ValidCommand(pwm)
  }

  function Step(c: Copro, e: Event): Copro
    requires FramesSized(c.safety)
  {
    if !Enabled(c, e) then c
    else match e
      case Pass(us) => c.(now := c.now + us)
      case SwitchUpdate(i, asserting, needsUpdate) =>
        Notify(c.(safety := Update(c.safety, i, asserting, needsUpdate, c.now)), c.safety, c.safety.initialized && asserting)
      case SoftwareKill(m) =>
        Notify(c.(safety := OnMessage(c.safety, c.physical, m, c.now),
                  owners := NewOwners(c.safety, c.physical, m, c.owners)), c.safety,
               c.safety.initialized && m.asserting && !Refused(c.safety, c.physical, m))
      case Tick =>
        if !c.safety.initialized then c
        else
          var s := Refresh(c.safety, c.now);
          Notify(c.(safety := s), c.safety, s.killed && !c.safety.killed)
      case ThrusterCommand(pwm) =>
        c.(esc := Command(c.esc, c.safety, pwm, c.now), lastCommand := if Accepted(c, pwm) then c.now else c.lastCommand)
      case TimeoutAlarm => c.(esc := Timeout(c.esc, c.now))
      case BatteryState(low) => c.(esc := LowBattery(c.esc, low))
      case StatusArrived => c.(link := OnStatus(c.link, c.safety.killed))
      case ReportEnded(end) => c.(link := OnEnd(c.link, end, c.safety.killed))
      case InitSafety => c.(safety := c.safety.(initialized := true, lastChange := c.now))
      case InitThrusters => c.(esc := Esc(true, AllNeutral(), None, c.esc.allowed, c.esc.lowBattery))
      case InitLink => c.(link := c.link.(initialized := true))
  }

  function Start(switches: nat, physical: nat): Copro {
    var idle := Switch(false, false, false, 0, seq(FRAME_SIZE, _ => 0));
    Copro(Safety(seq(switches, _ => idle), false, true, 0), Esc(false, AllNeutral(), None, 0, false),
          Link(false, false, false, false, None, false), 0, physical, 0, map[])
  }

  // ---- What every run keeps ----

  /**
   * A thruster off neutral: the robot is enabled and has been so for five seconds, the
   * battery is good, no timeout is being served, and the timeout alarm is pending.
   */
  predicate ThrustersSafe(c: Copro) {
    && |c.esc.levels| == THRUSTERS
    && (forall i :: 0 <= i < THRUSTERS ==> InRange(c.esc.levels[i]))
    && (c.esc.alarm.Some? <==> !Neutral(c.esc.levels))
    && (!Neutral(c.esc.levels) ==>
          && c.esc.initialized && c.safety.initialized && !c.safety.killed
          && !Held(c.esc, c.safety.lastChange, c.now)
          && c.now <= c.esc.alarm.value == c.lastCommand + MIN_UPDATE_RATE_US && c.lastCommand <= c.now)
  }

  /** Whatever is in flight is the current state, or will be followed by it; idle after success means reported. */
  predicate LinkTruthful(c: Copro) {
    && (c.link.inUse ==> c.link.initialized && (c.link.value == c.safety.killed || c.link.needsRefresh))
    && (!c.link.inUse && c.link.last == Some(Success) ==> c.link.initialized && c.link.reported == c.safety.killed)
    && (!c.link.initialized ==> c.link.last == None)
  }

  ghost predicate Inv(c: Copro) {
    && FramesSized(c.safety) && Prompt(c.safety)
    && (!c.safety.initialized ==> c.safety.killed)
    && c.safety.lastChange <= c.now
    && ThrustersSafe(c) && LinkTruthful(c)
  }

  lemma StopSafe(c: Copro)
    requires Inv(c)
    ensures Neutral(Stop(c.esc).levels) && |Stop(c.esc).levels| == THRUSTERS && Stop(c.esc).alarm == None
  {}

  lemma NotifyKeeps(c: Copro, s: Safety, kills: bool)
    requires Inv(c)
    requires FramesSized(s) && Prompt(s) && s.initialized == c.safety.initialized && s.lastChange <= c.now
    requires kills ==> s.killed
    requires !kills ==> (s.killed ==> c.safety.killed && s.lastChange == c.safety.lastChange)
    requires !kills && !c.safety.killed ==> s.lastChange == c.safety.lastChange
    requires !s.initialized ==> s.killed
    ensures Inv(Notify(c.(safety := s), c.safety, kills))
  {
    StopSafe(c);
  }

  lemma CommandKeeps(c: Copro, pwm: seq<nat>)
    requires Inv(c) && Enabled(c, ThrusterCommand(pwm))
    ensures Inv(Step(c, ThrusterCommand(pwm)))
  {
    StopSafe(c);
  }

  lemma ThrusterStepKeeps(c: Copro, e: Event)
    requires Inv(c) && Enabled(c, e) && (e.TimeoutAlarm? || e.BatteryState? || e.InitThrusters? || e.Pass? || e.InitSafety?)
    ensures Inv(Step(c, e))
  {
    StopSafe(c);
  }

  lemma LinkStepKeeps(c: Copro, e: Event)
    requires Inv(c) && Enabled(c, e) && (e.StatusArrived? || e.ReportEnded? || e.InitLink?)
    ensures Inv(Step(c, e))
  {}

  lemma StepKeeps(c: Copro, e: Event)
    requires Inv(c)
    ensures Inv(Step(c, e))
  {
    if Enabled(c, e) {
      match e
      case SwitchUpdate(i, asserting, needsUpdate) =>
        NotifyKeeps(c, Update(c.safety, i, asserting, needsUpdate, c.now), c.safety.initialized && asserting);
      case SoftwareKill(m) =>
        NotifyKeeps(c.(owners := NewOwners(c.safety, c.physical, m, c.owners)), OnMessage(c.safety, c.physical, m, c.now),
                    c.safety.initialized && m.asserting && !Refused(c.safety, c.physical, m));
      case Tick =>
        if c.safety.initialized {
          var s := Refresh(c.safety, c.now);
          RefreshExact(c.safety, c.now);
          NotifyKeeps(c, s, s.killed && !c.safety.killed);
        }
      case ThrusterCommand(pwm) => CommandKeeps(c, pwm);
      case StatusArrived => LinkStepKeeps(c, e);
      case ReportEnded(_) => LinkStepKeeps(c, e);
      case InitLink => LinkStepKeeps(c, e);
      case _ => ThrusterStepKeeps(c, e);
    }
  }

  lemma StepKeepsFrames(c: Copro, e: Event)
    requires FramesSized(c.safety)
    ensures FramesSized(Step(c, e).safety)
  {}

  function Run(c: Copro, es: seq<Event>): (r: Copro)
    requires FramesSized(c.safety)
    ensures FramesSized(r.safety)
  {
    if es == [] then c
    else
      var d := Run(c, es[..|es| - 1]);
      StepKeepsFrames(d, es[|es| - 1]);
      Step(d, es[|es| - 1])
  }

  lemma {:induction false} RunKeeps(switches: nat, physical: nat, es: seq<Event>)
    ensures Inv(Run(Start(switches, physical), es))
  {
    if es == [] {
      StartKeeps(switches, physical);
    } else {
      RunKeeps(switches, physical, es[..|es| - 1]);
      StepKeeps(Run(Start(switches, physical), es[..|es| - 1]), es[|es| - 1]);
    }
  }

  lemma StartKeeps(switches: nat, physical: nat)
    ensures Inv(Start(switches, physical))
  {}

  predicate Guarded(c: Copro) {
    && !c.safety.killed && !c.esc.lowBattery && c.esc.allowed <= c.now
    && c.safety.lastChange + WAKEUP_DELAY_US <= c.now
    && c.now <= c.lastCommand + MIN_UPDATE_RATE_US
    && c.esc.alarm == Some(c.lastCommand + MIN_UPDATE_RATE_US)
  }

  lemma OffNeutralGuarded(c: Copro, i: nat)
    requires Inv(c) && i < THRUSTERS && c.esc.levels[i] != NEUTRAL
    ensures Guarded(c)
  {}

  /** A command that returns early, having cancelled the alarm, finds all thrusters at neutral. */
  lemma EarlyReturnFindsNeutral(c: Copro, pwm: seq<nat>)
    requires Inv(c) && Enabled(c, ThrusterCommand(pwm)) && !c.safety.killed && Held(c.esc, c.safety.lastChange, c.now)
    ensures Neutral(c.esc.levels) && Step(c, ThrusterCommand(pwm)).esc == c.esc
  {}

  /** A kill takes effect within the call, on the thrusters too; and so do a timeout and a low battery. */
  lemma KillStopsThrusters(c: Copro, e: Event)
    requires Inv(c) && Enabled(c, e)
    ensures Step(c, e).safety.killed ==> Neutral(Step(c, e).esc.levels) && Step(c, e).esc.alarm == None
    ensures e.SwitchUpdate? && c.safety.initialized && e.asserting ==> Step(c, e).safety.killed
    ensures e == Tick && c.safety.initialized ==> Step(c, e).safety.killed == MustKill(c.safety.switches, c.now)
    ensures e == TimeoutAlarm || e == BatteryState(true) ==> Neutral(Step(c, e).esc.levels)
  {
    StepKeeps(c, e);
    RefreshExact(c.safety, c.now);
    StopSafe(c);
  }

  /** In every run: once the link is idle after a success, the board has been told the current state. */
  lemma IdleLinkIsCurrent(switches: nat, physical: nat, es: seq<Event>)
    ensures var c := Run(Start(switches, physical), es);
      && (c.link.inUse && c.link.value != c.safety.killed ==> c.link.needsRefresh)
      && (!c.link.inUse && c.link.last == Some(Success) ==> c.link.reported == c.safety.killed)
  {
    RunKeeps(switches, physical, es);
  }

  /**
   * Other endings leave the link idle with what was last reported, even if the report was out of
   * date and a newer state waits; the next status of the board repeats the report.
   */
  lemma UnsuccessfulEndDropsRefresh(c: Copro, end: Ending)
    requires Inv(c) && c.link.inUse && end != Success && c.safety.initialized
    ensures var d := Step(c, ReportEnded(end));
      && !d.link.inUse && d.link.reported == c.link.reported
      && (c.link.value != c.safety.killed ==> d.link.needsRefresh && d.link.value != d.safety.killed)
      && Step(d, StatusArrived).link == Send(d.link, d.safety.killed)
  {}

  lemma RunOne(c: Copro, es: seq<Event>, e: Event)
    requires FramesSized(c.safety)
    ensures Run(c, es + [e]) == Step(Run(c, es), e)
  {
    assert (es + [e])[..|es|] == es;
  }

  /** All is initialized, and the only switch does not assert kill. */
  predicate Released(c: Copro) {
    && c.safety.initialized && c.safety.killed && c.link == Link(true, false, false, false, None, false)
    && |c.safety.switches| == 1 && c.safety.switches[0].enabled
    && !c.safety.switches[0].asserting && !c.safety.switches[0].needsUpdate
  }

  lemma SwitchReleased() returns (es: seq<Event>)
    ensures Released(Run(Start(1, 0), es))
  {
    var c := Start(1, 0);
    RunOne(c, [], InitSafety);
    assert [] + [InitSafety] == [InitSafety];
    RunOne(c, [InitSafety], InitLink);
    RunOne(c, [InitSafety] + [InitLink], SwitchUpdate(0, false, false));
    es := [InitSafety] + [InitLink] + [SwitchUpdate(0, false, false)];
  }

  /** The robot is enabled, and the board has been told so. */
  lemma ReportedEnabled() returns (es: seq<Event>)
    ensures var d := Run(Start(1, 0), es);
      && !d.safety.killed && !d.link.inUse && !d.link.reported && d.link.initialized && d.safety.initialized
      && |d.safety.switches| == 1
  {
    es := SwitchReleased();
    var c := Run(Start(1, 0), es);
    assert !Kills(c.safety.switches[0], c.now);
    RunOne(Start(1, 0), es, Tick);
    RunOne(Start(1, 0), es + [Tick], ReportEnded(Success));
    es := es + [Tick] + [ReportEnded(Success)];
  }

  /** So it happens that the robot is killed, the board was last told that it is not, and no report is on its way. */
  lemma KilledAndUnreported() returns (es: seq<Event>)
    ensures var c := Run(Start(1, 0), es);
      c.safety.killed && !c.link.reported && !c.link.inUse && c.link.needsRefresh && c.link.last == Some(Failure)
  {
    var c := Start(1, 0);
    es := ReportedEnabled();
    RunOne(c, es, StatusArrived);
    RunOne(c, es + [StatusArrived], SwitchUpdate(0, true, false));
    RunOne(c, es + [StatusArrived] + [SwitchUpdate(0, true, false)], ReportEnded(Failure));
    es := es + [StatusArrived] + [SwitchUpdate(0, true, false)] + [ReportEnded(Failure)];
  }

  lemma StepKeepsOwners(c: Copro, e: Event)
    requires Owned(c.safety, c.physical, c.owners) && (e.SwitchUpdate? ==> e.i == c.physical)
    ensures Step(c, e).physical == c.physical && Owned(Step(c, e).safety, c.physical, Step(c, e).owners)
  {
    if e.SoftwareKill? { MessageKeepsOwners(c.safety, c.physical, e.m, c.now, c.owners); }
  }

  /** In every run in which only the physical switch is set directly, software kills belong to their last asserter. */
  lemma {:induction false} RunKeepsOwners(switches: nat, physical: nat, es: seq<Event>)
    requires forall e :: e in es && e.SwitchUpdate? ==> e.i == physical
    ensures var c := Run(Start(switches, physical), es); c.physical == physical && Owned(c.safety, physical, c.owners)
  {
    if es != [] {
      RunKeepsOwners(switches, physical, es[..|es| - 1]);
      StepKeepsOwners(Run(Start(switches, physical), es[..|es| - 1]), es[|es| - 1]);
    }
  }
}
