/**
 * The actuator board watched from outside: its status, its settings and the results of its commands
 * follow from the commands, kills and alarms so far. There are no timers and motors in this account.
 */
module ActuatorBoardWatch {
  import opened KillSwitch
  import opened KillWatch
  import opened ActuatorBoardSpec
  import opened ActuatorBoardProofs

  /** `times` are the torpedo times as they were sent, 0 for those that were not; `firing` as in the status record. */
  datatype Watch = Watch(
    killed: bool,
    word: Word,
    claw: ClawState,
    openTime: nat,
    closeTime: nat,
    dropTime: nat,
    dropping: seq<bool>,
    dropped: seq<bool>,
    armed: bool,
    firing: nat,
    fired: seq<bool>,
    times: seq<seq<nat>>,
    charged: bool)

  predicate Sized(w: Watch) {
    && |w.dropping| == |w.dropped| == DROPPERS && |w.fired| == |w.times| == TORPEDOES && w.firing <= TORPEDOES
    && forall i :: 0 <= i < TORPEDOES ==> |w.times[i]| == TIMINGS
  }

  // ---- What a kill interrupts ----

  /** A dropper that is stopped counts as having dropped. */
  function DroppersHalted(w: Watch): (v: Watch)
    requires Sized(w)
    ensures Sized(v)
  {
    w.(dropping := [false, false], dropped := [w.dropped[0] || w.dropping[0], w.dropped[1] || w.dropping[1]])
  }

  /** A claw that is stopped is nowhere. */
  function ClawHalted(w: Watch): (v: Watch)
    requires Sized(w)
    ensures Sized(v)
  {
    w.(claw := if w.claw == Opening || w.claw == Closing then UnknownPosition else w.claw)
  }

  /** A torpedo that is stopped counts as fired, and the torpedoes are no longer armed. */
  function TorpedoesHalted(w: Watch): (v: Watch)
    requires Sized(w)
    ensures Sized(v)
  {
    w.(armed := false, firing := 0, fired := [w.fired[0] || w.firing == 1, w.fired[1] || w.firing == 2])
  }

  function Halted(w: Watch): (v: Watch)
    requires Sized(w)
    ensures Sized(v) && v.killed && v.word == w.word
  {
    TorpedoesHalted(ClawHalted(DroppersHalted(w))).(killed := true)
  }

  // ---- Commands ----

  function ClawCommanded(w: Watch, target: ClawState, going: ClawState): (r: (Watch, Result))
    requires Sized(w)
    ensures Sized(r.0)
  {
    if w.killed || w.openTime * w.closeTime == 0 then (w, Failed)
    else if w.claw == target then (w, Successful)
    else if w.claw == going then (w, Running)
    else if w.claw == Opening || w.claw == Closing then (w, Failed)
    else (w.(claw := going), Running)
  }

  function DropCommanded(w: Watch, num: nat): (r: (Watch, Result))
    requires Sized(w)
    ensures Sized(r.0)
  {
    if w.killed || w.dropTime == 0 || !(num == 1 || num == 2) then (w, Failed)
    else if w.dropping[num - 1] then (w, Running)
    else if w.dropped[num - 1] then (w, Successful)
    else (w.(dropping := w.dropping[num - 1 := true]), Running)
  }

  /** What the coil program needs beyond the time that it is given; a time that is no longer than that is no time. */
  function Least(kind: nat): nat {
    if kind in {0, 2, 4} then ON_SUBTRACT else OFF_SUBTRACT
  }

  predicate AllTimesSent(times: seq<nat>) {
    forall kind :: 0 <= kind < |times| ==> times[kind] > Least(kind)
  }

  function FireCommanded(w: Watch, num: nat): (r: (Watch, Result))
    requires Sized(w)
    ensures Sized(r.0)
  {
    if w.killed || !w.armed || !(num == 1 || num == 2) || !AllTimesSent(w.times[num - 1]) || w.firing == 3 - num then (w, Failed)
    else if w.firing == num then (w, Running)
    else if w.fired[num - 1] then (w, Successful)
    else if w.charged then (w.(firing := num), Running)
    else (w, Failed)
  }

  function TimeSent(w: Watch, num: nat, kind: nat, time: nat): (r: (Watch, Result))
    requires Sized(w)
    ensures Sized(r.0)
  {
    if !(num == 1 || num == 2) || w.firing == num || kind > 4 || time < Least(kind) then (w, Failed)
    else
      var sent: seq<nat> := w.times[num - 1][kind := time];
      (w.(times := w.times[num - 1 := sent]), Successful)
  }

  function Commanded(w: Watch, c: Command, now: nat): (r: (Watch, Result))
    requires Sized(w)
    ensures Sized(r.0)
  {
    match c
    case GetStatus => (w, Successful)
    case OpenClaw => ClawCommanded(w, Opened, Opening)
    case CloseClaw => ClawCommanded(w, Closed, Closing)
    case SetClawTiming(open, close) =>
      if open * close == 0 then (w, Failed) else (w.(openTime := open, closeTime := close), Successful)
    case ArmTorpedo =>
      if w.killed then (w, Failed) else (if w.armed then w else w.(armed := true, fired := [false, false]), Successful)
    case DisarmTorpedo => if w.firing > 0 then (w, Failed) else (w.(armed := false), Successful)
    case FireTorpedo(num) => FireCommanded(w, num)
    case SetTorpedoTiming(num, kind, time) => TimeSent(w, num, kind, time)
    case Drop(num) => DropCommanded(w, num)
    case ClearDropperStatus =>
      (w.(dropped := [w.dropped[0] && w.dropping[0], w.dropped[1] && w.dropping[1]]),
       if w.dropping == [false, false] then Successful else Failed)
    case SetDropperTiming(time) => if time == 0 then (w, Failed) else (w.(dropTime := time), Successful)
    case SetKillSwitch(asserting) =>
      var v := w.(word := Said(asserting, true, now));
      (if asserting then Halted(v) else v, Successful)
  }

  function Ticked(w: Watch, now: nat): (v: Watch)
    requires Sized(w)
    ensures Sized(v)
  {
    if !MustBeKilled([w.word], now) then w.(killed := false) else if w.killed then w else Halted(w)
  }

  function Stopped(w: Watch, action: Action): (v: Watch)
    requires Sized(w)
    ensures Sized(v)
  {
    match action
    case ClawFinish(_) => w.(claw := if w.claw == Opening then Opened else if w.claw == Closing then Closed else w.claw)
    case DropFinish(i) => if i < DROPPERS then w.(dropping := w.dropping[i := false], dropped := w.dropped[i := true]) else w
  }

  /** Of the board it needs the clock, and which actuator an alarm is for. */
  function Watched(w: Watch, b: Board, e: Event): (v: Watch)
    requires Sized(w) && Enabled(b, e)
    ensures Sized(v)
  {
    match e
    case Pass(_) => w
    case Do(c) => Commanded(w, c, b.now).0
    case Tick => Ticked(w, b.now)
    case AlarmFires(id) => Stopped(w, b.timer.alarms[id].action)
    case SequenceDone => if w.firing == 0 then w else w.(firing := 0, fired := w.fired[w.firing - 1 := true])
    case ChargeIs(charged) => w.(charged := charged)
  }

  function Outset(): Watch {
    Watch(true, Never, UnknownPosition, 0, 0, 0, [false, false], [false, false], false, 0, [false, false],
          [seq(TIMINGS, _ => 0), seq(TIMINGS, _ => 0)], false)
  }

  function Over(es: seq<Event>): (w: Watch)
    ensures Sized(w)
  {
    if es == [] then Outset()
    else
      var b, e, w := Run(es[..|es| - 1]), es[|es| - 1], Over(es[..|es| - 1]);
      if Enabled(b, e) then Watched(w, b, e) else w
  }

  // ---- Agreement ----

  predicate ClawAgrees(c: Claw, w: Watch) {
    c.state == w.claw && c.openTime == w.openTime && c.closeTime == w.closeTime
  }

  predicate DroppersAgree(ds: seq<Dropper>, w: Watch)
    requires Sized(w)
  {
    |ds| == DROPPERS && forall i :: 0 <= i < DROPPERS ==> ds[i].dropping == w.dropping[i] && ds[i].dropped == w.dropped[i]
  }

  /** A time that has not been sent is stored as 0, and so is one that the coil program spends anyway. */
  predicate TimesAgree(timings: seq<nat>, times: seq<nat>) {
    && |timings| == |times| == TIMINGS
    && forall k :: 0 <= k < TIMINGS ==> timings[k] == if times[k] <= Least(k) then 0 else times[k] - Least(k)
  }

  predicate TorpedoesAgree(ts: seq<Torpedo>, active: nat, armed: bool, w: Watch)
    requires Sized(w)
  {
    && |ts| == TORPEDOES && active == w.firing && armed == w.armed
    && forall i :: 0 <= i < TORPEDOES ==> ts[i].fired == w.fired[i] && TimesAgree(ts[i].timings, w.times[i])
  }

  predicate SafetyAgrees(s: Safety, w: Watch) {
    s.killed == w.killed && SwitchesAgree(s.switches, [w.word], [[]])
  }

  predicate Agrees(b: Board, w: Watch) {
    && Sized(w) && SafetyAgrees(b.safety, w)
    && ClawAgrees(b.claw, w) && b.dropTime == w.dropTime && DroppersAgree(b.droppers, w)
    && TorpedoesAgree(b.torpedoes, b.active, b.armed, w) && b.charged == w.charged
  }

  /** Only the droppers have changed. */
  lemma DroppersOnly(b: Board, c: Board, w: Watch, v: Watch)
    requires Agrees(b, w) && c == b.(droppers := c.droppers, timer := c.timer)
    requires v == w.(dropping := v.dropping, dropped := v.dropped) && Sized(v) && DroppersAgree(c.droppers, v)
    ensures Agrees(c, v)
  {}

  lemma DropperHalts(b: Board, i: nat, d: Dropper)
    requires WellFormed(b) && i < DROPPERS && d == b.droppers[i]
    ensures var c := DisableDropper(b, i);
      && c == b.(droppers := c.droppers, timer := c.timer) && |c.droppers| == DROPPERS
      && !c.droppers[i].dropping && c.droppers[i].dropped == (d.dropped || d.dropping)
      && forall j :: 0 <= j < DROPPERS && j != i ==> c.droppers[j] == b.droppers[j]
  {}

  lemma DroppersHalt(b: Board, w: Watch)
    requires WellFormed(b) && Agrees(b, w)
    ensures var c := DisableDropper(DisableDropper(b, 0), 1); WellFormed(c) && Agrees(c, DroppersHalted(w))
  {
    DropperHalts(b, 0, b.droppers[0]);
    var c := DisableDropper(b, 0);
    DropperHalts(c, 1, c.droppers[1]);
    DroppersOnly(b, DisableDropper(c, 1), w, DroppersHalted(w));
  }

  lemma ClawHalts(b: Board, w: Watch)
    requires WellFormed(b) && Agrees(b, w)
    ensures WellFormed(DisableClaw(b)) && Agrees(DisableClaw(b), ClawHalted(w))
  {}

  lemma TorpedoesHalt(b: Board, w: Watch)
    requires WellFormed(b) && Agrees(b, w)
    ensures WellFormed(DisableTorpedoes(b)) && Agrees(DisableTorpedoes(b), TorpedoesHalted(w))
  {}

  lemma KillHalts(b: Board, w: Watch)
    requires WellFormed(b) && Agrees(b, w) && b.safety.killed
    ensures Agrees(KillAll(b), Halted(w))
  {
    DroppersHalt(b, w);
    var c, v := DisableDropper(DisableDropper(b, 0), 1), DroppersHalted(w);
    ClawHalts(c, v);
    TorpedoesHalt(DisableClaw(c), ClawHalted(v));
  }

  lemma ClawCommandAgrees(b: Board, w: Watch, opening: bool)
    requires WellFormed(b) && Agrees(b, w)
    ensures var d, v := MoveClaw(b, opening),
                        if opening then ClawCommanded(w, Opened, Opening) else ClawCommanded(w, Closed, Closing);
      Agrees(d.0, v.0) && d.1 == v.1
  {
    NoneZero(w.openTime, w.closeTime);
  }

  lemma NoneZero(a: nat, b: nat)
    ensures a * b == 0 <==> a == 0 || b == 0
  {}

  lemma DropAgrees(b: Board, w: Watch, num: nat)
    requires WellFormed(b) && Agrees(b, w)
    ensures Agrees(DropMarker(b, num).0, DropCommanded(w, num).0) && DropMarker(b, num).1 == DropCommanded(w, num).1
  {
    if num == 1 || num == 2 { DropperAgrees(b, w, num); }
  }

  lemma DropperAgrees(b: Board, w: Watch, num: nat)
    requires WellFormed(b) && Agrees(b, w) && (num == 1 || num == 2)
    ensures Agrees(DropMarker(b, num).0, DropCommanded(w, num).0) && DropMarker(b, num).1 == DropCommanded(w, num).1
  {
    var c, v := DropMarker(b, num).0, DropCommanded(w, num).0;
    var d := b.droppers[num - 1];
    assert d.dropping == w.dropping[num - 1] && d.dropped == w.dropped[num - 1];
    DroppersOnly(b, c, w, v);
  }

  lemma ClearAgrees(b: Board, w: Watch)
    requires WellFormed(b) && Agrees(b, w)
    ensures var v := Commanded(w, ClearDropperStatus, b.now); Agrees(ClearDroppers(b).0, v.0) && ClearDroppers(b).1 == v.1
  {
    assert b.droppers[0].dropping == w.dropping[0] && b.droppers[1].dropping == w.dropping[1];
  }

  lemma TimedAgrees(t: Torpedo, times: seq<nat>)
    requires TimesAgree(t.timings, times)
    ensures Timed(t) == AllTimesSent(times)
  {}

  lemma FireAgrees(b: Board, w: Watch, num: nat)
    requires WellFormed(b) && Agrees(b, w)
    ensures Agrees(Fire(b, num).0, FireCommanded(w, num).0) && Fire(b, num).1 == FireCommanded(w, num).1
  {
    if 1 <= num <= TORPEDOES { TimedAgrees(b.torpedoes[num - 1], w.times[num - 1]); }
  }

  /** Only the torpedoes have changed. */
  lemma TorpedoesOnly(b: Board, c: Board, w: Watch, v: Watch)
    requires Agrees(b, w) && c == b.(torpedoes := c.torpedoes, active := c.active, armed := c.armed, sequencing := c.sequencing)
    requires v == w.(times := v.times, fired := v.fired, armed := v.armed, firing := v.firing)
    requires Sized(v) && TorpedoesAgree(c.torpedoes, c.active, c.armed, v)
    ensures Agrees(c, v)
  {}

  lemma TimeStored(timings: seq<nat>, times: seq<nat>, kind: nat, time: nat)
    requires TimesAgree(timings, times) && kind < TIMINGS && time >= Compensation(kind)
    ensures TimesAgree(timings[kind := time - Compensation(kind)], times[kind := time])
  {
    SameCompensation(kind);
  }

  lemma SameCompensation(kind: nat)
    requires kind < TIMINGS
    ensures Compensation(kind) == Least(kind)
  {}

  lemma TimeAgrees(b: Board, w: Watch, num: nat, kind: nat, time: nat)
    requires WellFormed(b) && Agrees(b, w)
    ensures var d, v := TorpedoTiming(b, num, kind, time), TimeSent(w, num, kind, time); Agrees(d.0, v.0) && d.1 == v.1
  {
    if kind < TIMINGS {
      SameCompensation(kind);
      if 1 <= num <= TORPEDOES && time >= Least(kind) && b.active != num {
        TimeStored(b.torpedoes[num - 1].timings, w.times[num - 1], kind, time);
        TorpedoesOnly(b, TorpedoTiming(b, num, kind, time).0, w, TimeSent(w, num, kind, time).0);
      }
    }
  }

  lemma ArmAgrees(b: Board, w: Watch)
    requires WellFormed(b) && Agrees(b, w)
    ensures var v := Commanded(w, ArmTorpedo, b.now); Agrees(Arm(b).0, v.0) && Arm(b).1 == v.1
  {}

  lemma SafetyOnly(b: Board, w: Watch, s: Safety, v: Watch)
    requires Agrees(b, w) && v == w.(killed := v.killed, word := v.word) && SafetyAgrees(s, v)
    ensures Agrees(b.(safety := s), v)
  {}

  lemma HaltedAnyway(w: Watch)
    requires Sized(w)
    ensures Halted(w.(killed := true)) == Halted(w)
  {}

  lemma KilledNow(b: Board, w: Watch, s: Safety, v: Watch)
    requires WellFormed(b) && Agrees(b, w) && s.killed && |s.switches| == 1 && s.initialized
    requires v == w.(word := v.word) && SafetyAgrees(s, v.(killed := true))
    ensures Agrees(KillAll(b.(safety := s)), Halted(v))
  {
    SafetyOnly(b, w, s, v.(killed := true));
    KillHalts(b.(safety := s), v.(killed := true));
    HaltedAnyway(v);
  }

  lemma UpdateAgrees(s: Safety, w: Watch, asserting: bool, now: nat)
    requires SafetyAgrees(s, w) && s.initialized
    ensures SafetyAgrees(Update(s, 0, asserting, true, now),
                         w.(word := Said(asserting, true, now), killed := w.killed || asserting))
  {}

  lemma KillAsserted(b: Board, w: Watch)
    requires WellFormed(b) && Agrees(b, w)
    ensures Agrees(KillSwitchCommand(b, true), Halted(w.(word := Said(true, true, b.now))))
  {
    UpdateAgrees(b.safety, w, true, b.now);
    KilledNow(b, w, Update(b.safety, 0, true, true, b.now), w.(word := Said(true, true, b.now)));
  }

  lemma KillReleased(b: Board, w: Watch)
    requires WellFormed(b) && Agrees(b, w)
    ensures Agrees(KillSwitchCommand(b, false), w.(word := Said(false, true, b.now)))
  {
    UpdateAgrees(b.safety, w, false, b.now);
    SafetyOnly(b, w, Update(b.safety, 0, false, true, b.now), w.(word := Said(false, true, b.now)));
  }

  lemma SwitchAgreesToo(b: Board, w: Watch, asserting: bool)
    requires WellFormed(b) && Agrees(b, w)
    ensures Agrees(KillSwitchCommand(b, asserting), Commanded(w, SetKillSwitch(asserting), b.now).0)
  {
    if asserting { KillAsserted(b, w); } else { KillReleased(b, w); }
  }

  lemma RefreshAgrees(s: Safety, w: Watch, now: nat)
    requires SafetyAgrees(s, w)
    ensures SafetyAgrees(Refresh(s, now), w.(killed := MustBeKilled([w.word], now)))
  {
    MustKillAgrees(s.switches, [w.word], [[]], now);
  }

  lemma TickAgrees(b: Board, w: Watch)
    requires WellFormed(b) && Agrees(b, w)
    ensures Agrees(SafetyTick(b), Ticked(w, b.now))
  {
    var s, k := Refresh(b.safety, b.now), MustBeKilled([w.word], b.now);
    RefreshAgrees(b.safety, w, b.now);
    if s.killed && !b.safety.killed { KilledNow(b, w, s, w); } else { SafetyOnly(b, w, s, w.(killed := k)); }
  }

  lemma CommandAgrees(b: Board, w: Watch, c: Command)
    requires WellFormed(b) && Agrees(b, w)
    ensures Agrees(Execute(b, c).0, Commanded(w, c, b.now).0) && Execute(b, c).1 == Commanded(w, c, b.now).1
  {
    match c
    case GetStatus =>
    case OpenClaw => ClawCommandAgrees(b, w, true);
    case CloseClaw => ClawCommandAgrees(b, w, false);
    case SetClawTiming(open, close) => NoneZero(open, close);
    case ArmTorpedo => ArmAgrees(b, w);
    case DisarmTorpedo =>
    case FireTorpedo(num) => FireAgrees(b, w, num);
    case SetTorpedoTiming(num, kind, time) => TimeAgrees(b, w, num, kind, time);
    case Drop(num) => DropAgrees(b, w, num);
    case ClearDropperStatus => ClearAgrees(b, w);
    case SetDropperTiming(_) =>
    case SetKillSwitch(asserting) => SwitchAgreesToo(b, w, asserting);
  }

  lemma AlarmAgrees(b: Board, w: Watch, id: nat)
    requires Inv(b) && Agrees(b, w) && id in b.timer.alarms
    ensures Agrees(RunAlarm(b, id), Stopped(w, b.timer.alarms[id].action))
  {
    match b.timer.alarms[id].action
    case ClawFinish(target) => ClawAlarmAgrees(b, w, id, target);
    case DropFinish(i) => if i < DROPPERS { DroppersOnly(b, RunAlarm(b, id), w, Stopped(w, DropFinish(i))); }
  }

  lemma ClawAlarmAgrees(b: Board, w: Watch, id: nat, target: ClawState)
    requires WellFormed(b) && ClawSafe(b.claw, b.timer) && Agrees(b, w)
    requires id in b.timer.alarms && b.timer.alarms[id].action == ClawFinish(target)
    ensures Agrees(RunAlarm(b, id), Stopped(w, ClawFinish(target)))
  {}

  lemma StepAgrees(b: Board, w: Watch, e: Event)
    requires Inv(b) && Agrees(b, w) && Enabled(b, e)
    ensures Agrees(Step(b, e), Watched(w, b, e))
  {
    match e
    case Pass(_) =>
    case Do(c) => CommandAgrees(b, w, c);
    case Tick => TickAgrees(b, w);
    case AlarmFires(id) => AlarmAgrees(b, w, id);
    case SequenceDone =>
    case ChargeIs(_) =>
  }

  /**
   * In every run: the kill state, the position of the claw, which droppers run and have dropped, whether
   * the torpedoes are armed, which is firing and which have fired, and all the times that have been set.
   */
  lemma {:induction false} StatusFollows(es: seq<Event>)
    ensures Agrees(Run(es), Over(es))
  {
    if es == [] {
      OutsetAgrees();
    } else {
      StatusFollows(es[..|es| - 1]);
      RunKeeps(es[..|es| - 1]);
      var b, e := Run(es[..|es| - 1]), es[|es| - 1];
      if Enabled(b, e) { StepAgrees(b, Over(es[..|es| - 1]), e); }
    }
  }

  lemma OutsetAgrees()
    ensures Agrees(Start(), Outset())
  {
    assert Start().safety.switches[0].frame[0] == 0;
  }

  /** After every run, the result of the next command is what the events so far call for. */
  lemma ResultFollows(es: seq<Event>, c: Command)
    ensures Execute(Run(es), c).1 == Commanded(Over(es), c, Run(es).now).1
  {
    StatusFollows(es);
    RunKeeps(es);
    CommandAgrees(Run(es), Over(es), c);
  }
}
