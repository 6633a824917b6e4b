/**
 * How the coprocessor brings the timings of the actuator board up to date: the board
 * reports which ones it misses, and a chain of commands sends the cached values, one
 * command at a time, each started by the reply to the one before.
 */
module TimingSync {
  import opened Common
  import opened ActuatorBoardSpec
  import ActuatorBoardProofs
  import KillSwitch

  const BITS: nat := 13        // of the missing-timings record

  /** Bits 0 and 1 belong to the claw, 2 to the droppers, then five to each torpedo. */
  function Slot(id: nat): nat {
    if id <= 1 then 0 else id - 1
  }

  function BitsOf(id: nat): set<nat> {
    if id <= 1 then {0, 1} else {id}
  }

  function CommandFor(id: nat, time: nat): Command
    requires id < BITS
  {
    if id <= 1 then SetClawTiming(time, time)
    else if id == 2 then SetDropperTiming(time)
    else SetTorpedoTiming(1 + (id - 3) / 5, (id - 3) % 5, time)
  }

  datatype Sync = Sync(missing: set<nat>, cached: map<nat, nat>, inUse: bool, failed: bool, sent: seq<Command>)

  predicate Sendable(missing: set<nat>, cached: map<nat, nat>, id: nat) {
    id in missing && Slot(id) in cached
  }

  /** The first missing timing, from bit `id` on, whose value is known. */
  function NextId(missing: set<nat>, cached: map<nat, nat>, id: nat): (n: Option<nat>)
    ensures n.Some? ==> id <= n.value < BITS && Sendable(missing, cached, n.value)
    ensures n.Some? ==> forall i :: id <= i < n.value ==> !Sendable(missing, cached, i)
    ensures n.None? ==> forall i :: id <= i < BITS ==> !Sendable(missing, cached, i)
    decreases BITS - id
  {
    if id >= BITS then None
    else if Sendable(missing, cached, id) then Some(id)
    else NextId(missing, cached, id + 1)
  }

  /** actuator_update_missing_timings_common: the bit is cleared as the command is sent. */
  function SendNext(s: Sync): Sync {
    match NextId(s.missing, s.cached, 0)
    case None => s.(inUse := false)
    case Some(id) =>
      s.(missing := s.missing - BitsOf(id), inUse := true, sent := s.sent + [CommandFor(id, s.cached[Slot(id)])])
  }

  function UpdateMissing(s: Sync): Sync {
    if s.inUse then s else SendNext(s.(failed := false))
  }

  function SlotBits(slot: nat): set<nat> {
    set id | 0 <= id < BITS && Slot(id) == slot
  }

  datatype SyncEvent =
    | Status(reported: set<nat>)                // from the board
    | Parameter(slot: nat, time: nat)           // from outside
    | Reply                                     // with a good checksum, whatever the result
    | Failure                                   // of the transfer, or of the checksum

  function SyncStep(s: Sync, e: SyncEvent): Sync {
    match e
    case Status(reported) =>
      if reported == {} then s else UpdateMissing(s.(missing := s.missing + reported))
    case Parameter(slot, time) =>
      UpdateMissing(s.(cached := s.cached[slot := time], missing := s.missing + SlotBits(slot)))
    case Reply => if s.inUse then SendNext(s) else s
    case Failure => if s.inUse then s.(inUse := false, failed := true) else s
  }

  function SyncRun(es: seq<SyncEvent>): Sync {
    if es == [] then Sync({}, map[], false, false, []) else SyncStep(SyncRun(es[..|es| - 1]), es[|es| - 1])
  }

  /** An idle sender whose last command did not fail has nothing left that it could send. */
  predicate Settled(s: Sync) {
    !s.inUse ==> s.failed || forall id :: 0 <= id < BITS ==> !Sendable(s.missing, s.cached, id)
  }

  lemma {:induction false} RunSettles(es: seq<SyncEvent>)
    ensures Settled(SyncRun(es))
  {
    if es != [] { RunSettles(es[..|es| - 1]); }
  }

  // ---- The chain ----

  /** The chain of replies until the sender is idle again. */
  function Chain(s: Sync): (r: Sync)
    ensures !r.inUse
    decreases s.missing, s.inUse
  {
    if s.inUse then Chain(SendNext(s)) else s
  }

  /** One command for each sendable timing, in the order of the bits; the claw needs only one. */
  function AllCommands(missing: set<nat>, cached: map<nat, nat>, id: nat): seq<Command>
    decreases BITS - id
  {
    if id >= BITS then []
    else if Sendable(missing, cached, id) then
      [CommandFor(id, cached[Slot(id)])] + AllCommands(missing - BitsOf(id), cached, id + 1)
    else AllCommands(missing, cached, id + 1)
  }

  lemma {:induction false} SkipUnsendable(missing: set<nat>, cached: map<nat, nat>, id: nat, n: nat)
    requires id <= n <= BITS && forall i :: id <= i < n ==> !Sendable(missing, cached, i)
    ensures AllCommands(missing, cached, id) == AllCommands(missing, cached, n)
    decreases n - id
  {
    if id < n { SkipUnsendable(missing, cached, id + 1, n); }
  }

  /** The chain sends exactly one command for each timing that it can send, in order, and then is idle. */
  lemma {:induction false} ChainSendsAll(s: Sync)
    ensures var r := Chain(SendNext(s));
      r.sent == s.sent + AllCommands(s.missing, s.cached, 0) && r.cached == s.cached
    decreases s.missing
  {
    match NextId(s.missing, s.cached, 0)
    case None =>
      SkipUnsendable(s.missing, s.cached, 0, BITS);
      assert s.sent + [] == s.sent;
    case Some(id) =>
      var t := SendNext(s);
      ChainSendsAll(t);
      SkipUnsendable(s.missing, s.cached, 0, id);
      SkipUnsendable(t.missing, t.cached, 0, id + 1);
      Regroup(s.sent, [CommandFor(id, s.cached[Slot(id)])], AllCommands(t.missing, t.cached, id + 1));
  }

  /** The bit is cleared before the reply: if that command fails, its timing is not sent again until it is asked for again. */
  lemma FailedTimingIsForgotten(s: Sync, id: nat)
    requires !s.inUse && NextId(s.missing, s.cached, 0) == Some(id)
    ensures var r := SyncStep(UpdateMissing(s), Failure);
      !r.inUse && id !in r.missing && Slot(id) in r.cached
  {}

  // ---- The board ----

  /** What the board reports as missing: timings that are zero. */
  predicate IsMissing(b: Board, id: nat)
    requires WellFormed(b) && id < BITS
  {
    if id == 0 then b.claw.openTime == 0
    else if id == 1 then b.claw.closeTime == 0
    else if id == 2 then b.dropTime == 0
    else b.torpedoes[(id - 3) / 5].timings[(id - 3) % 5] == 0
  }

  /** A value that the board accepts and does not store as zero. */
  predicate Usable(id: nat, time: nat) {
    if id <= 2 then time > 0 else time > Compensation((id - 3) % 5)
  }

  /** A timing command clears exactly its own bits, unless it is refused because its torpedo is firing, whose times are set. */
  lemma CommandSets(b: Board, id: nat, time: nat)
    requires Inv(b) && id < BITS && Usable(id, time)
    ensures var c := Execute(b, CommandFor(id, time));
      && Inv(c.0) && (c.1 == Failed <==> id > 2 && b.active == 1 + (id - 3) / 5)
      && forall i :: 0 <= i < BITS ==> IsMissing(c.0, i) == (IsMissing(b, i) && i !in BitsOf(id))
  {
    ActuatorBoardProofs.ExecuteKeeps(b, CommandFor(id, time));
    if id > 2 { TorpedoCommandSets(b, id, time); }
  }

  lemma TorpedoCommandSets(b: Board, id: nat, time: nat)
    requires WellFormed(b) && TorpedoesSafe(b.torpedoes, b.active, b.armed, b.sequencing)
    requires 2 < id < BITS && Usable(id, time)
    ensures var c := Execute(b, CommandFor(id, time));
      && (c.1 == Failed <==> b.active == 1 + (id - 3) / 5) && WellFormed(c.0)
      && forall i :: 0 <= i < BITS ==> IsMissing(c.0, i) == (IsMissing(b, i) && i != id)
  {
    var c := Execute(b, CommandFor(id, time)).0;
    ActuatorBoardProofs.ExecuteWellFormed(b, CommandFor(id, time));
    forall i | 0 <= i < BITS ensures IsMissing(c, i) == (IsMissing(b, i) && i != id) {
      if i > 2 && (i - 3) / 5 == (id - 3) / 5 && (i - 3) % 5 == (id - 3) % 5 {
        assert i == id;
      }
    }
  }

  // ---- Sender and board together ----

  /** `arrived` says that the board has executed the command that is in use. */
  datatype Joint = Joint(s: Sync, b: Board, arrived: bool)

  datatype JointEvent =
    | OfSender(e: SyncEvent)
    | Arrives                                   // the command in use is executed
    | OfBoard(doing: Event)

  /** Times that the board will accept, and not store as zero. */
  predicate AllUsable(cached: map<nat, nat>) {
    forall id :: 0 <= id < BITS && Slot(id) in cached ==> Usable(id, cached[Slot(id)])
  }

  predicate AllKnown(cached: map<nat, nat>) {
    AllUsable(cached) && forall id :: 0 <= id < BITS ==> Slot(id) in cached
  }

  predicate SetsTiming(c: Command) {
    c.SetClawTiming? || c.SetDropperTiming? || c.SetTorpedoTiming?
  }

  /** No transfer fails, a reply comes after the execution, parameters are usable, and only the sender sends timings. */
  predicate MayHappen(j: Joint, e: JointEvent) {
    match e
    case OfSender(Failure) => false
    case OfSender(Reply) => j.s.inUse && j.arrived
    case OfSender(Parameter(slot, time)) => forall id :: 0 <= id < BITS && Slot(id) == slot ==> Usable(id, time)
    case OfSender(Status(_)) => true
    case Arrives => j.s.inUse && !j.arrived && j.s.sent != []
    case OfBoard(Do(command)) => !SetsTiming(command)
    case OfBoard(_) => true
  }

  function JointStep(j: Joint, e: JointEvent): Joint
    requires WellFormed(j.b)
  {
    if !MayHappen(j, e) then j
    else match e
      case OfSender(f) =>
        var t := SyncStep(j.s, f);
        Joint(t, j.b, j.arrived && |t.sent| == |j.s.sent|)
      case Arrives => j.(b := Execute(j.b, j.s.sent[|j.s.sent| - 1]).0, arrived := true)
      case OfBoard(f) => j.(b := Step(j.b, f))
  }

  /** The bits that the command in use will clear once it is executed. */
  ghost predicate InFlight(j: Joint, id: nat) {
    && j.s.sent != [] && id < BITS
    && exists time :: Usable(id, time) && j.s.sent[|j.s.sent| - 1] == CommandFor(id, time)
  }

  predicate Within(b: Board, bits: set<nat>)
    requires WellFormed(b)
  {
    forall i :: 0 <= i < BITS && IsMissing(b, i) ==> i in bits
  }

  /** Every timing that the board misses is on its way or still to be sent, and an idle sender has none to send. */
  ghost predicate Owes(j: Joint) {
    && Inv(j.b) && AllUsable(j.s.cached)
    && (!j.s.inUse || j.arrived ==> Within(j.b, j.s.missing))
    && (j.s.inUse && !j.arrived ==> exists id: nat :: InFlight(j, id) && Within(j.b, j.s.missing + BitsOf(id)))
    && (!j.s.inUse ==> forall id :: 0 <= id < BITS ==> !Sendable(j.s.missing, j.s.cached, id))
  }

  /** No timing of the board is missing. */
  predicate Complete(b: Board)
    requires WellFormed(b)
  {
    forall i :: 0 <= i < BITS ==> !IsMissing(b, i)
  }

  predicate SameTimings(b: Board, c: Board) {
    && b.claw.openTime == c.claw.openTime && b.claw.closeTime == c.claw.closeTime && b.dropTime == c.dropTime
    && |b.torpedoes| == |c.torpedoes| && forall i :: 0 <= i < |b.torpedoes| ==> b.torpedoes[i].timings == c.torpedoes[i].timings
  }

  lemma DropperKeepsTimings(b: Board, i: nat)
    requires WellFormed(b) && i < DROPPERS
    ensures SameTimings(b, DisableDropper(b, i))
  {}

  lemma ClawKeepsTimings(b: Board)
    ensures SameTimings(b, DisableClaw(b))
  {}

  lemma TorpedoesKeepTimings(b: Board)
    requires WellFormed(b)
    ensures SameTimings(b, DisableTorpedoes(b))
  {}

  lemma KillKeepsTimings(b: Board)
    requires WellFormed(b)
    ensures SameTimings(b, KillAll(b))
  {
    DropperKeepsTimings(b, 0);
    ActuatorBoardProofs.DisableDropperWellFormed(b, 0);
    var c := DisableDropper(b, 0);
    DropperKeepsTimings(c, 1);
    ActuatorBoardProofs.DisableDropperWellFormed(c, 1);
    var d := DisableDropper(c, 1);
    ClawKeepsTimings(d);
    ActuatorBoardProofs.DisableClawWellFormed(d);
    TorpedoesKeepTimings(DisableClaw(d));
  }

  lemma KillSwitchKeepsTimings(b: Board, asserting: bool)
    requires WellFormed(b)
    ensures SameTimings(b, KillSwitchCommand(b, asserting))
  {
    KillKeepsTimings(b.(safety := KillSwitch.Update(b.safety, 0, asserting, true, b.now)));
  }

  lemma TickKeepsTimings(b: Board)
    requires WellFormed(b)
    ensures SameTimings(b, SafetyTick(b))
  {
    KillKeepsTimings(b.(safety := KillSwitch.Refresh(b.safety, b.now)));
  }

  lemma ShotKeepsTimings(b: Board)
    requires WellFormed(b) && b.active != 0
    ensures SameTimings(b, Fired(b))
  {}

  lemma CommandKeepsTimings(b: Board, c: Command)
    requires WellFormed(b) && !SetsTiming(c) && !c.SetKillSwitch?
    ensures SameTimings(b, Execute(b, c).0)
  {}

  lemma BoardKeepsTimings(b: Board, e: Event)
    requires WellFormed(b) && (e.Do? ==> !SetsTiming(e.command))
    ensures SameTimings(b, Step(b, e))
  {
    if Enabled(b, e) {
      match e
      case Do(SetKillSwitch(asserting)) => KillSwitchKeepsTimings(b, asserting);
      case Do(command) => CommandKeepsTimings(b, command);
      case Tick => TickKeepsTimings(b);
      case SequenceDone => ShotKeepsTimings(b);
      case _ =>
    }
  }

  lemma SameMissing(b: Board, c: Board, i: nat)
    requires WellFormed(b) && WellFormed(c) && SameTimings(b, c) && i < BITS
    ensures IsMissing(c, i) == IsMissing(b, i)
  {}

  /** Sending the next command keeps what is owed. */
  lemma SendOwes(s: Sync, b: Board)
    requires Inv(b) && AllUsable(s.cached) && Within(b, s.missing)
    ensures Owes(Joint(SendNext(s), b, false))
  {
    var j := Joint(SendNext(s), b, false);
    match NextId(s.missing, s.cached, 0)
    case None =>
    case Some(id) =>
      assert InFlight(j, id) by {
        assert Usable(id, s.cached[Slot(id)]) && j.s.sent[|j.s.sent| - 1] == CommandFor(id, s.cached[Slot(id)]);
      }
      assert Within(b, j.s.missing + BitsOf(id));
  }

  /** More bits to send do no harm while a command is in use. */
  lemma MoreOwes(j: Joint, s: Sync)
    requires Owes(j) && j.s.inUse && s.inUse && s.sent == j.s.sent && j.s.missing <= s.missing && AllUsable(s.cached)
    ensures Owes(j.(s := s))
  {
    if !j.arrived {
      var id: nat :| InFlight(j, id) && Within(j.b, j.s.missing + BitsOf(id));
      assert InFlight(j.(s := s), id) && Within(j.b, s.missing + BitsOf(id));
    }
  }

  lemma UpdateOwes(j: Joint, s: Sync)
    requires Owes(j) && s.inUse == j.s.inUse && s.sent == j.s.sent && j.s.missing <= s.missing && AllUsable(s.cached)
    ensures Owes(Joint(UpdateMissing(s), j.b, j.arrived && |UpdateMissing(s).sent| == |j.s.sent|))
  {
    if s.inUse {
      MoreOwes(j, s);
    } else {
      SendOwes(s.(failed := false), j.b);
      var t := UpdateMissing(s);
      if !t.inUse { assert Owes(Joint(t, j.b, false)); }
    }
  }

  lemma ArrivesOwes(j: Joint)
    requires Owes(j) && MayHappen(j, Arrives)
    ensures Owes(JointStep(j, Arrives))
  {
    var id: nat :| InFlight(j, id) && Within(j.b, j.s.missing + BitsOf(id));
    var time :| Usable(id, time) && j.s.sent[|j.s.sent| - 1] == CommandFor(id, time);
    CommandSets(j.b, id, time);
  }

  lemma BoardOwes(j: Joint, e: Event)
    requires Owes(j) && (e.Do? ==> !SetsTiming(e.command))
    ensures Owes(j.(b := Step(j.b, e)))
  {
    var c := Step(j.b, e);
    ActuatorBoardProofs.StepKeeps(j.b, e);
    BoardKeepsTimings(j.b, e);
    forall i | 0 <= i < BITS ensures IsMissing(c, i) == IsMissing(j.b, i) { SameMissing(j.b, c, i); }
    if j.s.inUse && !j.arrived {
      var id: nat :| InFlight(j, id) && Within(j.b, j.s.missing + BitsOf(id));
      assert InFlight(j.(b := c), id) && Within(c, j.s.missing + BitsOf(id));
    }
  }

  lemma SenderOwes(j: Joint, e: SyncEvent)
    requires Owes(j) && MayHappen(j, OfSender(e))
    ensures Owes(JointStep(j, OfSender(e)))
  {
    match e
    case Status(reported) => if reported != {} { UpdateOwes(j, j.s.(missing := j.s.missing + reported)); }
    case Parameter(slot, time) =>
      UpdateOwes(j, j.s.(cached := j.s.cached[slot := time], missing := j.s.missing + SlotBits(slot)));
    case Reply => SendOwes(j.s, j.b);
  }

  lemma JointKeeps(j: Joint, e: JointEvent)
    requires Owes(j)
    ensures Owes(JointStep(j, e))
  {
    if MayHappen(j, e) {
      match e
      case OfSender(f) => SenderOwes(j, f);
      case Arrives => ArrivesOwes(j);
      case OfBoard(f) => BoardOwes(j, f);
    }
  }

  lemma CommandWellFormed(b: Board, c: Command)
    requires WellFormed(b)
    ensures WellFormed(Execute(b, c).0)
  {
    match c
    case SetKillSwitch(asserting) => ActuatorBoardProofs.KillSwitchWellFormed(b, asserting);
    case _ => ActuatorBoardProofs.ExecuteWellFormed(b, c);
  }

  lemma JointWellFormed(j: Joint, e: JointEvent)
    requires WellFormed(j.b)
    ensures WellFormed(JointStep(j, e).b)
  {
    match e
    case OfSender(_) =>
    case Arrives => if j.s.sent != [] { CommandWellFormed(j.b, j.s.sent[|j.s.sent| - 1]); }
    case OfBoard(f) => ActuatorBoardProofs.StepWellFormed(j.b, f);
  }

  function JointRun(j: Joint, es: seq<JointEvent>): (r: Joint)
    requires WellFormed(j.b)
    ensures WellFormed(r.b)
  {
    if es == [] then j
    else
      var q := JointRun(j, es[..|es| - 1]);
      JointWellFormed(q, es[|es| - 1]);
      JointStep(q, es[|es| - 1])
  }

  lemma {:induction false} RunOwes(j: Joint, es: seq<JointEvent>)
    requires Owes(j)
    ensures Owes(JointRun(j, es))
  {
    if es != [] {
      RunOwes(j, es[..|es| - 1]);
      JointKeeps(JointRun(j, es[..|es| - 1]), es[|es| - 1]);
    }
  }

  lemma {:induction false} KnownStaysKnown(j: Joint, es: seq<JointEvent>)
    requires WellFormed(j.b)
    ensures j.s.cached.Keys <= JointRun(j, es).s.cached.Keys
  {
    if es != [] { KnownStaysKnown(j, es[..|es| - 1]); }
  }

  /**
   * From report to board: if the known values are usable and no transfer fails, then whatever the
   * board does meanwhile, firing torpedoes included, and whatever else is reported or changed,
   * once the chain that a report has set off is over the board misses only timings whose value
   * nobody has given yet; none, if all are known.
   */
  lemma ReportedTimingsArrive(b: Board, s: Sync, reported: set<nat>, es: seq<JointEvent>)
    requires Inv(b) && AllUsable(s.cached) && !s.inUse && reported != {} && Within(b, reported)
    ensures var r := JointRun(Joint(SyncStep(s, Status(reported)), b, false), es);
      && Inv(r.b)
      && (!r.s.inUse ==> forall i :: 0 <= i < BITS && IsMissing(r.b, i) ==> Slot(i) !in r.s.cached)
      && (!r.s.inUse && AllKnown(s.cached) ==> Complete(r.b))
  {
    var j := Joint(SyncStep(s, Status(reported)), b, false);
    SendOwes(s.(missing := s.missing + reported, failed := false), b);
    RunOwes(j, es);
    KnownStaysKnown(j, es);
    var r := JointRun(j, es);
    assert forall i :: 0 <= i < BITS && Slot(i) in s.cached ==> Slot(i) in r.s.cached.Keys;
    if !r.s.inUse {
      forall i | 0 <= i < BITS && IsMissing(r.b, i) ensures Slot(i) !in r.s.cached {
        assert !Sendable(r.s.missing, r.s.cached, i);
      }
    }
  }

  // ---- The sender ----

  class Sender {
    var missing: set<nat>
    var cached: map<nat, nat>
    var inUse: bool
    var failed: bool
    var sent: seq<Command>

    ghost function Abs(): Sync
      reads this
    {
      Sync(missing, cached, inUse, failed, sent)
    }

    constructor ()
      ensures Abs() == SyncRun([])
    {
      missing, cached, inUse, failed, sent := {}, map[], false, false, [];
    }

    /** Sends the command for the first missing timing that is known, and clears its bits. */
    method UpdateCommon() returns (sending: bool)
      modifies this`missing, this`sent
      ensures Abs().(inUse := sending) == SendNext(old(Abs()))
      ensures sending <==> NextId(old(missing), cached, 0).Some?
    {
      var next := NextId(missing, cached, 0);
      if next.None? { return false; }
      var id := next.value;
      if id <= 1 {
        sent := sent + [SetClawTiming(cached[0], cached[0])];
        missing := missing - {0, 1};
      } else if id == 2 {
        sent := sent + [SetDropperTiming(cached[1])];
        missing := missing - {2};
      } else {
        sent := sent + [SetTorpedoTiming(1 + (id - 3) / 5, (id - 3) % 5, cached[id - 1])];
        missing := missing - {id};
      }
      return true;
    }

    method UpdateMissingTimings()
      modifies this
      ensures Abs() == UpdateMissing(old(Abs()))
    {
      if inUse { return; }
      failed := false;
      inUse := true;
      var sending := UpdateCommon();
      if !sending { inUse := false; }
    }

    method OnReply()
      requires inUse
      modifies this
      ensures Abs() == SyncStep(old(Abs()), Reply)
    {
      inUse := UpdateCommon();
    }

    method OnFailure()
      requires inUse
      modifies this
      ensures Abs() == SyncStep(old(Abs()), Failure)
    {
      inUse := false;
      failed := true;
    }

    method OnStatus(reported: set<nat>)
      modifies this
      ensures Abs() == SyncStep(old(Abs()), Status(reported))
    {
      if reported != {} {
        missing := missing + reported;
        UpdateMissingTimings();
      }
    }

    method OnParameter(slot: nat, time: nat)
      modifies this
      ensures Abs() == SyncStep(old(Abs()), Parameter(slot, time))
    {
      cached := cached[slot := time];
      missing := missing + SlotBits(slot);
      UpdateMissingTimings();
    }
  }
}
