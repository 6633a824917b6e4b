/** Which times the actuator board holds once the coprocessor has brought it up to date: the ones last given. */
module TimingValues {
  import opened Common
  import opened ActuatorBoardSpec
  import opened TimingSync
  import ActuatorBoardProofs

  /** The time for a bit, as the board was told it: the coil program's own cycles are taken off before it is stored. */
  predicate Holds(b: Board, id: nat, time: nat)
    requires WellFormed(b) && id < BITS
  {
    if id == 0 then b.claw.openTime == time
    else if id == 1 then b.claw.closeTime == time
    else if id == 2 then b.dropTime == time
    else b.torpedoes[(id - 3) / 5].timings[(id - 3) % 5] + Compensation((id - 3) % 5) == time
  }

  /** The time that a command sets for a bit. */
  function TimeIn(c: Command, id: nat): Option<nat> {
    match c
    case SetClawTiming(open, close) => if id == 0 then Some(open) else if id == 1 then Some(close) else None
    case SetDropperTiming(time) => if id == 2 then Some(time) else None
    case SetTorpedoTiming(num, kind, time) => if id + 2 == 5 * num + kind then Some(time) else None
    case _ => None
  }

  /** The time that is on its way for a bit. */
  function Coming(j: Joint, id: nat): Option<nat> {
    if j.s.inUse && !j.arrived && j.s.sent != [] then TimeIn(j.s.sent[|j.s.sent| - 1], id) else None
  }

  predicate Known(s: Sync, id: nat) {
    id < BITS && Slot(id) in s.cached
  }

  /** The last time given is still to be sent, or on its way, or held by the board with no other on its way. */
  predicate UpToDate(j: Joint, id: nat)
    requires WellFormed(j.b) && Known(j.s, id)
  {
    var time := j.s.cached[Slot(id)];
    id in j.s.missing || if Coming(j, id).Some? then Coming(j, id).value == time else Holds(j.b, id, time)
  }

  ghost predicate AllUpToDate(j: Joint)
    requires WellFormed(j.b)
  {
    forall id :: 0 <= id < BITS && Known(j.s, id) ==> UpToDate(j, id)
  }

  /** The command in use arrives while its torpedo is firing. */
  predicate Refuses(j: Joint)
    requires WellFormed(j.b)
  {
    j.s.sent != [] && Execute(j.b, j.s.sent[|j.s.sent| - 1]).1 == Failed
  }

  predicate NeverRefused(j: Joint, es: seq<JointEvent>)
    requires WellFormed(j.b)
  {
    es != [] ==>
      && NeverRefused(j, es[..|es| - 1])
      && !(es[|es| - 1] == Arrives && Refuses(JointRun(j, es[..|es| - 1])))
  }

  // ---- What the sender sends ----

  /** What is on its way is a time that the board can take, and an idle sender has nothing left that it could send. */
  ghost predicate Orderly(j: Joint) {
    && Inv(j.b) && AllUsable(j.s.cached)
    && (j.s.inUse && !j.arrived ==> exists id: nat :: InFlight(j, id))
    && (!j.s.inUse ==> forall id :: 0 <= id < BITS ==> !Sendable(j.s.missing, j.s.cached, id))
  }

  lemma SendOrderly(s: Sync, b: Board, arrived: bool)
    requires Inv(b) && AllUsable(s.cached)
    ensures Orderly(Joint(SendNext(s), b, arrived))
  {
    var j := Joint(SendNext(s), b, arrived);
    match NextId(s.missing, s.cached, 0)
    case None =>
    case Some(id) =>
      assert Usable(id, s.cached[Slot(id)]) && j.s.sent[|j.s.sent| - 1] == CommandFor(id, s.cached[Slot(id)]);
      assert InFlight(j, id);
  }

  lemma UpdateOrderly(j: Joint, s: Sync, arrived: bool)
    requires Orderly(j) && AllUsable(s.cached) && s.inUse == j.s.inUse && s.sent == j.s.sent && (s.inUse ==> arrived == j.arrived)
    ensures Orderly(Joint(UpdateMissing(s), j.b, arrived))
  {
    if !s.inUse {
      SendOrderly(s.(failed := false), j.b, arrived);
    } else if !arrived {
      var id: nat :| InFlight(j, id);
      assert InFlight(Joint(s, j.b, arrived), id);
    }
  }

  lemma BoardOrderly(j: Joint, c: Board, arrived: bool)
    requires Orderly(j) && Inv(c) && (!arrived ==> !j.arrived)
    ensures Orderly(Joint(j.s, c, arrived))
  {
    if j.s.inUse && !arrived {
      var id: nat :| InFlight(j, id);
      assert InFlight(Joint(j.s, c, arrived), id);
    }
  }

  lemma StepOrderly(j: Joint, e: JointEvent)
    requires Orderly(j)
    ensures Orderly(JointStep(j, e))
  {
    if MayHappen(j, e) {
      match e
      case OfSender(Status(reported)) =>
        if reported != {} {
          var s := j.s.(missing := j.s.missing + reported);
          UpdateOrderly(j, s, j.arrived && |UpdateMissing(s).sent| == |j.s.sent|);
        }
      case OfSender(Parameter(slot, time)) =>
        var s := j.s.(cached := j.s.cached[slot := time], missing := j.s.missing + SlotBits(slot));
        UpdateOrderly(j, s, j.arrived && |UpdateMissing(s).sent| == |j.s.sent|);
      case OfSender(Reply) => SendOrderly(j.s, j.b, j.arrived && |SendNext(j.s).sent| == |j.s.sent|);
      case Arrives =>
        var id: nat :| InFlight(j, id);
        var time :| Usable(id, time) && j.s.sent[|j.s.sent| - 1] == CommandFor(id, time);
        CommandSets(j.b, id, time);
        BoardOrderly(j, Execute(j.b, CommandFor(id, time)).0, true);
      case OfBoard(f) =>
        ActuatorBoardProofs.StepKeeps(j.b, f);
        BoardOrderly(j, Step(j.b, f), j.arrived);
    }
  }

  lemma {:induction false} RunOrderly(j: Joint, es: seq<JointEvent>)
    requires Orderly(j)
    ensures Orderly(JointRun(j, es))
  {
    if es != [] {
      RunOrderly(j, es[..|es| - 1]);
      StepOrderly(JointRun(j, es[..|es| - 1]), es[|es| - 1]);
    }
  }

  // ---- Each step ----

  lemma TimeInCommand(k: nat, time: nat, id: nat)
    requires k < BITS && id < BITS
    ensures TimeIn(CommandFor(k, time), id) == if id in BitsOf(k) then Some(time) else None
    ensures id in BitsOf(k) ==> Slot(id) == Slot(k)
  {}

  /** Sending the next command while none is on its way. */
  lemma SendKeeps(s: Sync, b: Board, arrived: bool, id: nat)
    requires WellFormed(b) && Known(s, id) && (id in s.missing || Holds(b, id, s.cached[Slot(id)]))
    requires arrived ==> NextId(s.missing, s.cached, 0).None?
    ensures UpToDate(Joint(SendNext(s), b, arrived), id)
  {
    match NextId(s.missing, s.cached, 0)
    case None =>
    case Some(k) => TimeInCommand(k, s.cached[Slot(k)], id);
  }

  lemma NothingOnTheWay(j: Joint, id: nat)
    requires WellFormed(j.b) && Known(j.s, id) && UpToDate(j, id) && (!j.s.inUse || j.arrived)
    ensures id in j.s.missing || Holds(j.b, id, j.s.cached[Slot(id)])
  {}

  lemma SentGrows(s: Sync)
    ensures |SendNext(s).sent| == |s.sent| <==> NextId(s.missing, s.cached, 0).None?
  {}

  /** More bits to send, or a new time that is to be sent. */
  lemma UpdateKeeps(j: Joint, s: Sync, id: nat)
    requires WellFormed(j.b) && Known(s, id) && s.inUse == j.s.inUse && s.sent == j.s.sent && j.s.missing <= s.missing
    requires id in s.missing || (Known(j.s, id) && UpToDate(j, id) && s.cached[Slot(id)] == j.s.cached[Slot(id)])
    ensures UpToDate(Joint(UpdateMissing(s), j.b, j.arrived && |UpdateMissing(s).sent| == |j.s.sent|), id)
  {
    if !s.inUse {
      SentGrows(s.(failed := false));
      SendKeeps(s.(failed := false), j.b, j.arrived && |UpdateMissing(s).sent| == |j.s.sent|, id);
    }
  }

  lemma SenderKeeps(j: Joint, e: SyncEvent, id: nat)
    requires WellFormed(j.b) && MayHappen(j, OfSender(e)) && Known(JointStep(j, OfSender(e)).s, id)
    requires Known(j.s, id) ==> UpToDate(j, id)
    ensures UpToDate(JointStep(j, OfSender(e)), id)
  {
    match e
    case Status(reported) => if reported != {} { UpdateKeeps(j, j.s.(missing := j.s.missing + reported), id); }
    case Parameter(slot, time) =>
      UpdateKeeps(j, j.s.(cached := j.s.cached[slot := time], missing := j.s.missing + SlotBits(slot)), id);
    case Reply =>
      NothingOnTheWay(j, id);
      SentGrows(j.s);
      SendKeeps(j.s, j.b, j.arrived && |SendNext(j.s).sent| == |j.s.sent|, id);
  }

  /** An accepted timing command sets the times in it, and leaves the others. */
  lemma CommandHolds(b: Board, k: nat, time: nat, id: nat, t: nat)
    requires WellFormed(b) && k < BITS && id < BITS
    requires Execute(b, CommandFor(k, time)).1 != Failed
    ensures WellFormed(Execute(b, CommandFor(k, time)).0)
    ensures Holds(Execute(b, CommandFor(k, time)).0, id, t) <==> if id in BitsOf(k) then t == time else Holds(b, id, t)
  {
    ActuatorBoardProofs.ExecuteWellFormed(b, CommandFor(k, time));
    if k > 2 && id > 2 && id != k { assert (id - 3) / 5 != (k - 3) / 5 || (id - 3) % 5 != (k - 3) % 5; }
  }

  lemma ArrivesKeeps(j: Joint, id: nat)
    requires Orderly(j) && MayHappen(j, Arrives) && !Refuses(j) && Known(j.s, id) && UpToDate(j, id)
    ensures UpToDate(JointStep(j, Arrives), id)
  {
    var k: nat :| InFlight(j, k);
    var time :| Usable(k, time) && j.s.sent[|j.s.sent| - 1] == CommandFor(k, time);
    TimeInCommand(k, time, id);
    CommandHolds(j.b, k, time, id, j.s.cached[Slot(id)]);
  }

  lemma SameHolds(b: Board, c: Board, id: nat, time: nat)
    requires WellFormed(b) && WellFormed(c) && SameTimings(b, c) && id < BITS
    ensures Holds(c, id, time) == Holds(b, id, time)
  {}

  lemma BoardKeeps(j: Joint, e: Event, id: nat)
    requires WellFormed(j.b) && (e.Do? ==> !SetsTiming(e.command)) && Known(j.s, id) && UpToDate(j, id)
    ensures WellFormed(Step(j.b, e)) && UpToDate(j.(b := Step(j.b, e)), id)
  {
    ActuatorBoardProofs.StepWellFormed(j.b, e);
    BoardKeepsTimings(j.b, e);
    SameHolds(j.b, Step(j.b, e), id, j.s.cached[Slot(id)]);
  }

  lemma StepKeeps(j: Joint, e: JointEvent, id: nat)
    requires Orderly(j) && Known(JointStep(j, e).s, id) && (Known(j.s, id) ==> UpToDate(j, id))
    requires !(e == Arrives && Refuses(j))
    ensures WellFormed(JointStep(j, e).b) && UpToDate(JointStep(j, e), id)
  {
    JointWellFormed(j, e);
    if MayHappen(j, e) {
      match e
      case OfSender(f) => SenderKeeps(j, f, id);
      case Arrives => ArrivesKeeps(j, id);
      case OfBoard(f) => BoardKeeps(j, f, id);
    }
  }

  // ---- Runs ----

  lemma {:induction false} RunUpToDate(j: Joint, es: seq<JointEvent>)
    requires Orderly(j) && AllUpToDate(j) && NeverRefused(j, es)
    ensures AllUpToDate(JointRun(j, es))
  {
    if es != [] {
      var init, e := es[..|es| - 1], es[|es| - 1];
      RunUpToDate(j, init);
      RunOrderly(j, init);
      forall id | 0 <= id < BITS && Known(JointRun(j, es).s, id) ensures UpToDate(JointRun(j, es), id) {
        StepKeeps(JointRun(j, init), e, id);
      }
    }
  }

  /** A sender that knows no times yet. */
  predicate Ignorant(s: Sync) {
    !s.inUse && s.cached == map[]
  }

  /**
   * From a sender that knows nothing yet and any state of the board: in every run in which no transfer fails and no
   * timing is refused, an idle sender has told the board the last time given for every slot, and the board holds it.
   */
  lemma LastTimesAreHeld(b: Board, s: Sync, es: seq<JointEvent>, id: nat)
    requires Inv(b) && Ignorant(s) && NeverRefused(Joint(s, b, true), es)
    ensures var r := JointRun(Joint(s, b, true), es);
      !r.s.inUse && Known(r.s, id) ==> Holds(r.b, id, r.s.cached[Slot(id)])
  {
    var j := Joint(s, b, true);
    RunUpToDate(j, es);
    RunOrderly(j, es);
    var r := JointRun(j, es);
    if !r.s.inUse && Known(r.s, id) {
      assert UpToDate(r, id);
      assert !Sendable(r.s.missing, r.s.cached, id);
    }
  }

  /**
   * A time that arrives while its torpedo is firing is refused: the board keeps the time it has, and the sender,
   * which has cleared the bit and takes any reply for an answer, does not send it again by itself.
   */
  lemma RefusedTimeIsForgotten(j: Joint, id: nat, time: nat)
    requires Orderly(j) && MayHappen(j, Arrives) && 2 < id < BITS && Usable(id, time) && id !in j.s.missing
    requires j.s.sent[|j.s.sent| - 1] == CommandFor(id, time)
    ensures var r := JointRun(j, [Arrives, OfSender(Reply)]);
      && id !in r.s.missing
      && (forall t :: Holds(r.b, id, t) <==> if j.b.active == 1 + (id - 3) / 5 then Holds(j.b, id, t) else t == time)
  {
    var es := [Arrives, OfSender(Reply)];
    assert es[..1] == [Arrives] && es[..1][..0] == [];
    assert JointRun(j, es[..1]) == JointStep(j, Arrives);
    CommandSets(j.b, id, time);
    if j.b.active != 1 + (id - 3) / 5 {
      forall t ensures Holds(Execute(j.b, CommandFor(id, time)).0, id, t) <==> t == time { CommandHolds(j.b, id, time, id, t); }
    }
  }
}
