/**
 * The coprocessor watched from outside: what the switches were last told, when the robot was
 * killed and enabled, and which thruster command counts follow from the events alone. Every run
 * of the board agrees with it.
 */
module CoproWatch {
  import opened Common
  import opened KillSwitch
  import opened KillWatch
  import opened CoproSafety

  /**
   * `change` is when the robot was last killed or enabled, or safety initialized; `blocked` is
   * until when the last timeout bars commands; `names` who last asserted each switch by software.
   */
  datatype Watch = Watch(killed: bool, change: nat, blocked: nat, battery: bool, levels: seq<nat>, commanded: nat,
                         words: seq<Word>, names: seq<seq<bv8>>)

  function Turned(w: Watch, killed: bool, now: nat): Watch {
    w.(killed := killed, change := if killed == w.killed then w.change else now,
       levels := if killed then AllNeutral() else w.levels)
  }

  function Told(w: Watch, i: nat, asserting: bool, needsUpdate: bool, now: nat, active: bool): Watch
    requires i < |w.words|
  {
    var v := w.(words := w.words[i := Said(asserting, needsUpdate, now)]);
    if active && asserting then Turned(v, true, now) else v
  }

  /** A message counts for any switch but the physical one; a release only from the node that asserted last. */
  predicate Counts(w: Watch, physical: nat, m: Message) {
    && m.id < |w.words| && m.id < |w.names| && m.id != physical && |m.sender| < FRAME_SIZE
    && (w.words[m.id].Said? && w.words[m.id].asserting && !m.asserting ==> CStr(m.sender) == w.names[m.id])
  }

  function Messaged(w: Watch, physical: nat, m: Message, now: nat, active: bool): Watch {
    if !Counts(w, physical, m) then w
    else
      var v := if m.asserting then w.(names := w.names[m.id := CStr(m.sender)]) else w;
      Told(v, m.id, m.asserting, m.needsUpdate, now, active)
  }

  /** Five seconds after the last change, with no timeout to serve and a good battery, the thrusters get what was sent. */
  function Commanded(w: Watch, pwm: seq<nat>, now: nat): Watch {
    if w.killed || now < w.blocked || now < w.change + WAKEUP_DELAY_US || w.battery then w
    else if exists i :: 0 <= i < |pwm| && !(1100 <= pwm[i] <= 1900) then w.(levels := AllNeutral())
    else w.(levels := pwm, commanded := now)
  }

  function Watched(w: Watch, e: Event, now: nat, physical: nat, active: bool): Watch {
    match e
    case SwitchUpdate(i, asserting, needsUpdate) =>
      if i < |w.words| then Told(w, i, asserting, needsUpdate, now, active) else w
    case SoftwareKill(m) => Messaged(w, physical, m, now, active)
    case Tick => if active then Turned(w, MustBeKilled(w.words, now), now) else w
    case ThrusterCommand(pwm) => Commanded(w, pwm, now)
    case TimeoutAlarm => w.(levels := AllNeutral(), blocked := now + UPDATE_DISABLE_US)
    case BatteryState(low) => w.(battery := low, levels := if low then AllNeutral() else w.levels)
    case InitSafety => w.(change := now)
    case InitThrusters => w.(levels := AllNeutral())
    case _ => w
  }

  function Outset(switches: nat): Watch {
    Watch(true, 0, 0, false, AllNeutral(), 0, seq(switches, _ => Never), seq(switches, _ => []))
  }

  /** The watch over a run; of the board's state it reads the clock, and whether the event can happen. */
  function Over(switches: nat, physical: nat, es: seq<Event>): Watch {
    if es == [] then Outset(switches)
    else
      var c, e := Run(Start(switches, physical), es[..|es| - 1]), es[|es| - 1];
      var w := Over(switches, physical, es[..|es| - 1]);
      if Enabled(c, e) then Watched(w, e, c.now, physical, c.safety.initialized) else w
  }

  // ---- Agreement ----

  /** A kill that is repeated restarts the time once more, which a robot that stays killed does not notice. */
  predicate SafetyAgrees(s: Safety, w: Watch) {
    && s.killed == w.killed && w.change <= s.lastChange && (!s.killed ==> w.change == s.lastChange)
  }

  predicate EscAgrees(e: Esc, lastCommand: nat, w: Watch) {
    && e.levels == w.levels && e.allowed == w.blocked && e.lowBattery == w.battery && lastCommand == w.commanded
  }

  ghost predicate Agrees(c: Copro, w: Watch) {
    SwitchesAgree(c.safety.switches, w.words, w.names) && SafetyAgrees(c.safety, w) && EscAgrees(c.esc, c.lastCommand, w)
  }

  lemma RefusedAgrees(s: Safety, w: Watch, physical: nat, m: Message)
    requires SwitchesAgree(s.switches, w.words, w.names)
    ensures Refused(s, physical, m) == !Counts(w, physical, m)
  {
    if m.id < |s.switches| && |m.sender| < FRAME_SIZE {
      assert SwitchAgrees(s.switches[m.id], w.words[m.id], w.names[m.id]);
      StrnEqualIsSameString(s.switches[m.id].frame, m.sender, FRAME_SIZE);
    }
  }

  lemma UpdateAgrees(s: Safety, w: Watch, i: nat, asserting: bool, needsUpdate: bool, now: nat)
    requires SwitchesAgree(s.switches, w.words, w.names) && SafetyAgrees(s, w) && i < |s.switches| && s.lastChange <= now
    ensures var t, v := Update(s, i, asserting, needsUpdate, now), Told(w, i, asserting, needsUpdate, now, s.initialized);
      SwitchesAgree(t.switches, v.words, v.names) && SafetyAgrees(t, v)
  {}

  lemma MessageAgrees(s: Safety, w: Watch, physical: nat, m: Message, now: nat)
    requires FramesSized(s)
    requires SwitchesAgree(s.switches, w.words, w.names) && SafetyAgrees(s, w) && s.lastChange <= now
    ensures var t, v := OnMessage(s, physical, m, now), Messaged(w, physical, m, now, s.initialized);
      SwitchesAgree(t.switches, v.words, v.names) && SafetyAgrees(t, v)
  {
    RefusedAgrees(s, w, physical, m);
    if !Refused(s, physical, m) {
      var sw := s.switches[m.id];
      assert SwitchAgrees(sw, w.words[m.id], w.names[m.id]);
      if m.asserting {
        LockedNamesSender(sw.frame, m.sender);
        var locked := s.(switches := s.switches[m.id := sw.(frame := Locked(sw.frame, m.sender))]);
        var v := w.(names := w.names[m.id := CStr(m.sender)]);
        assert SwitchesAgree(locked.switches, v.words, v.names);
        UpdateAgrees(locked, v, m.id, m.asserting, m.needsUpdate, now);
      } else {
        assert s.switches[m.id := sw] == s.switches;
        UpdateAgrees(s, w, m.id, m.asserting, m.needsUpdate, now);
      }
    }
  }

  lemma TickAgrees(s: Safety, w: Watch, now: nat)
    requires SwitchesAgree(s.switches, w.words, w.names) && SafetyAgrees(s, w) && s.lastChange <= now
    ensures var t, v := Refresh(s, now), Turned(w, MustBeKilled(w.words, now), now);
      SwitchesAgree(t.switches, v.words, v.names) && SafetyAgrees(t, v)
  {
    MustKillAgrees(s.switches, w.words, w.names, now);
  }

  /** The thrusters follow when the kill state turns, since they are at neutral whenever it says killed. */
  lemma NotifiedAgrees(c: Copro, w: Watch, e: Event)
    requires Inv(c) && Enabled(c, e) && EscAgrees(c.esc, c.lastCommand, w) && SafetyAgrees(c.safety, w)
    requires e.SwitchUpdate? || e.SoftwareKill? || e == Tick
    requires e.SwitchUpdate? ==> e.i < |w.words|
    requires Step(c, e).safety.killed == Watched(w, e, c.now, c.physical, c.safety.initialized).killed
    ensures EscAgrees(Step(c, e).esc, Step(c, e).lastCommand, Watched(w, e, c.now, c.physical, c.safety.initialized))
  {
    StepKeeps(c, e);
    assert Stop(c.esc).levels == AllNeutral() || Neutral(c.esc.levels);
    NeutralIsAllNeutral(c.esc.levels);
    NeutralIsAllNeutral(Step(c, e).esc.levels);
  }

  lemma NeutralIsAllNeutral(levels: seq<nat>)
    requires |levels| == THRUSTERS
    ensures Neutral(levels) <==> levels == AllNeutral()
  {}

  lemma EscStepAgrees(c: Copro, w: Watch, e: Event)
    requires Inv(c) && Enabled(c, e) && EscAgrees(c.esc, c.lastCommand, w) && SafetyAgrees(c.safety, w)
    requires e.ThrusterCommand? || e == TimeoutAlarm || e.BatteryState? || e == InitThrusters
    ensures EscAgrees(Step(c, e).esc, Step(c, e).lastCommand, Watched(w, e, c.now, c.physical, c.safety.initialized))
  {
    NeutralIsAllNeutral(c.esc.levels);
  }

  lemma StepAgrees(c: Copro, w: Watch, e: Event)
    requires Inv(c) && Enabled(c, e) && Agrees(c, w)
    ensures Agrees(Step(c, e), Watched(w, e, c.now, c.physical, c.safety.initialized))
  {
    match e
    case SwitchUpdate(i, asserting, needsUpdate) =>
      UpdateAgrees(c.safety, w, i, asserting, needsUpdate, c.now);
      NotifiedAgrees(c, w, e);
    case SoftwareKill(m) =>
      MessageAgrees(c.safety, w, c.physical, m, c.now);
      NotifiedAgrees(c, w, e);
    case Tick =>
      if c.safety.initialized { TickAgrees(c.safety, w, c.now); }
      NotifiedAgrees(c, w, e);
    case ThrusterCommand(_) => EscStepAgrees(c, w, e);
    case TimeoutAlarm => EscStepAgrees(c, w, e);
    case BatteryState(_) => EscStepAgrees(c, w, e);
    case InitThrusters => EscStepAgrees(c, w, e);
    case Pass(_) =>
    case StatusArrived =>
    case ReportEnded(_) =>
    case InitSafety =>
    case InitLink =>
  }

  lemma {:induction false} RunAgrees(switches: nat, physical: nat, es: seq<Event>)
    ensures Agrees(Run(Start(switches, physical), es), Over(switches, physical, es))
    ensures Run(Start(switches, physical), es).physical == physical
  {
    if es == [] {
      StartAgrees(switches, physical);
    } else {
      var init := es[..|es| - 1];
      RunAgrees(switches, physical, init);
      RunKeeps(switches, physical, init);
      var c, e := Run(Start(switches, physical), init), es[|es| - 1];
      if Enabled(c, e) { StepAgrees(c, Over(switches, physical, init), e); }
    }
  }

  lemma StartAgrees(switches: nat, physical: nat)
    ensures Agrees(Start(switches, physical), Outset(switches))
  {
    forall i | 0 <= i < switches ensures SwitchAgrees(Start(switches, physical).safety.switches[i], Never, []) {
      assert Start(switches, physical).safety.switches[i].frame[0] == 0;
    }
  }

  // ---- What follows ----

  /**
   * In every run the robot is killed, and each thruster is driven, as the events say: a kill at once,
   * a tick by what the switches were last told, a command by the rules on when it counts.
   */
  lemma ThrustersFollow(switches: nat, physical: nat, es: seq<Event>)
    ensures var c, w := Run(Start(switches, physical), es), Over(switches, physical, es);
      && c.safety.killed == w.killed && c.esc.levels == w.levels
      && c.esc.alarm == if w.levels == AllNeutral() then None else Some(w.commanded + MIN_UPDATE_RATE_US)
  {
    RunAgrees(switches, physical, es);
    RunKeeps(switches, physical, es);
    NeutralIsAllNeutral(Run(Start(switches, physical), es).esc.levels);
  }

  /**
   * In every run: whenever a thruster is off neutral, the robot is enabled and was last killed,
   * enabled or initialized at least five seconds ago, the battery is good, no timeout is being
   * served, and the last accepted command is at most one second old, with the alarm pending that
   * will stop the thrusters.
   */
  lemma OffNeutral(switches: nat, physical: nat, es: seq<Event>)
    ensures var c, w := Run(Start(switches, physical), es), Over(switches, physical, es);
      && |c.esc.levels| == THRUSTERS && (forall i :: 0 <= i < THRUSTERS ==> InRange(c.esc.levels[i]))
      && (!Neutral(c.esc.levels) ==>
            && !w.killed && !w.battery && w.blocked <= c.now && w.change + WAKEUP_DELAY_US <= c.now
            && c.now <= w.commanded + MIN_UPDATE_RATE_US && Guarded(c))
  {
    RunAgrees(switches, physical, es);
    RunKeeps(switches, physical, es);
    var c := Run(Start(switches, physical), es);
    if i :| 0 <= i < THRUSTERS && c.esc.levels[i] != NEUTRAL { OffNeutralGuarded(c, i); }
  }
}
