/**
 * The actuator board as a whole: its I2C target, the dispatch of the main loop, and the actuators.
 * A frame on the bus becomes a command, the command is executed, and its result goes back.
 */
module ActuatorSystem {
  import opened Common
  import opened CommandCoding
  import B = ActuatorBoardSpec
  import BP = ActuatorBoardProofs
  import KillSwitch
  import P = ActuatorProtocol
  import T = I2cTargetSpec
  import TP = I2cTargetProofs
  import X = I2cTargetExchange

  /** `executed` and `results` are the commands that the dispatch has executed, and what they returned. */
  datatype System = System(w: T.World, b: B.Board, executed: seq<B.Command>, results: seq<B.Result>)

  datatype Event =
    | OfTarget(e: T.Event)
    | OfBoard(doing: B.Event)       // ticks, alarms, interrupts of the coil program, the passing of time

  predicate Ready(s: System) {
    TP.Ready(s.w) && B.WellFormed(s.b)
  }

  /** The main loop is about to execute a command. */
  predicate Dispatches(s: System, f: T.Event) {
    f.MainStep? && s.w.pc == T.Working && Decode(s.w.copy).Some?
  }

  function ResultByte(r: B.Result): bv8 {
    match r
    case Successful => 0
    case Failed => 1
    case Running => 2
  }

  /** The dispatch answers with the result; what a status report says is not looked at. */
  predicate Enabled(s: System, e: Event)
    requires Ready(s)
  {
    match e
    case OfTarget(f) =>
      && T.Enabled(s.w, f)
      && (Dispatches(s, f) ==>
            var c := Decode(s.w.copy).value; c.GetStatus? || f.data == [ResultByte(B.Execute(s.b, c).1)])
    case OfBoard(f) => s.w.pc != T.Rebooted && !f.Do?
  }

  function Dispatched(s: System, f: T.Event): System
    requires Ready(s) && Dispatches(s, f)
  {
    var c := Decode(s.w.copy).value;
    System(T.Step(s.w, f), B.Execute(s.b, c).0, s.executed + [c], s.results + [B.Execute(s.b, c).1])
  }

  function Step(s: System, e: Event): System
    requires Ready(s)
  {
    if !Enabled(s, e) then s
    else match e
      case OfTarget(f) => if Dispatches(s, f) then Dispatched(s, f) else s.(w := T.Step(s.w, f))
      case OfBoard(f) => s.(b := B.Step(s.b, f))
  }

  lemma StepReady(s: System, e: Event)
    requires Ready(s)
    ensures Ready(Step(s, e))
  {
    match e
    case OfTarget(f) =>
      TP.StepReady(s.w, f);
      if Dispatches(s, f) { BP.CommandWellFormed(s.b, Decode(s.w.copy).value); }
    case OfBoard(f) => BP.StepWellFormed(s.b, f);
  }

  function Run(s: System, es: seq<Event>): (r: System)
    requires Ready(s)
    ensures Ready(r)
  {
    if es == [] then s
    else
      var q := Run(s, es[..|es| - 1]);
      StepReady(q, es[|es| - 1]);
      Step(q, es[|es| - 1])
  }

  /** What happens to the target in a run of the whole. */
  function TargetEvents(s: System, es: seq<Event>): seq<T.Event>
    requires Ready(s)
  {
    if es == [] then []
    else
      var init, e := es[..|es| - 1], es[|es| - 1];
      TargetEvents(s, init) + if e.OfTarget? && Enabled(Run(s, init), e) then [e.e] else []
  }

  lemma TargetStep(s: System, e: Event)
    requires Ready(s)
    ensures Step(s, e).w == if e.OfTarget? && Enabled(s, e) then T.Step(s.w, e.e) else s.w
  {}

  /** A run of the whole is a run of the target. */
  lemma {:induction false} TargetRuns(s: System, es: seq<Event>)
    requires Ready(s)
    ensures Run(s, es).w == TP.Run(s.w, TargetEvents(s, es))
  {
    if es != [] {
      var init, e := es[..|es| - 1], es[|es| - 1];
      TargetRuns(s, init);
      TargetStep(Run(s, init), e);
      if e.OfTarget? && Enabled(Run(s, init), e) {
        TP.RunOne(s.w, TargetEvents(s, init), e.e);
      } else {
        assert TargetEvents(s, es) == TargetEvents(s, init);
      }
    }
  }

  // ---- Commands and results ----

  /** The bytes answer the command with its result. */
  predicate Carries(bytes: seq<bv8>, c: B.Command, r: B.Result) {
    c.GetStatus? || (|bytes| >= 2 && bytes[1] == ResultByte(r))
  }

  /** The commands are those of the frames, in order. */
  predicate Decoded(commands: seq<B.Command>, frames: seq<seq<bv8>>) {
    |commands| <= |frames| && forall i :: 0 <= i < |commands| ==> Decode(frames[i]) == Some(commands[i])
  }

  predicate AllCarried(replies: seq<seq<bv8>>, commands: seq<B.Command>, results: seq<B.Result>) {
    && |replies| <= |commands| == |results|
    && forall i :: 0 <= i < |replies| ==> Carries(replies[i], commands[i], results[i])
  }

  /**
   * The executed commands are what the delivered frames say, but for the one being worked on or a
   * reset; the replies carry their results, but for the one that is still being put together.
   */
  predicate Faithful(s: System) {
    && Decoded(s.executed, s.w.delivered) && AllCarried(s.w.replies, s.executed, s.results)
    && |s.executed| + (if s.w.pc.Working? || s.w.pc.Rebooted? then 1 else 0) == |s.w.delivered|
    && |s.w.replies| + (if s.w.pc.Finishing? then 1 else 0) == |s.executed|
    && (s.w.pc.Finishing? ==>
          Carries(s.w.t.memory, s.executed[|s.executed| - 1], s.results[|s.results| - 1]))
  }

  ghost predicate Inv(s: System) {
    T.Inv(s.w) && B.Inv(s.b) && Faithful(s)
  }

  /** Only the main loop touches what the commands are judged by. */
  lemma InterruptTouchesNone(w: T.World, f: T.Event)
    requires TP.Ready(w) && !f.MainStep?
    ensures var v := T.Step(w, f);
      v.pc == w.pc && v.copy == w.copy && v.delivered == w.delivered && v.replies == w.replies && v.t.memory == w.t.memory
  {}

  lemma DecodedGrows(commands: seq<B.Command>, c: B.Command, frames: seq<seq<bv8>>)
    requires Decoded(commands, frames) && |frames| == |commands| + 1 && Decode(frames[|commands|]) == Some(c)
    ensures Decoded(commands + [c], frames)
  {}

  lemma DispatchFaithful(s: System, f: T.Event)
    requires Ready(s) && Faithful(s) && T.Answered(s.w) && T.InStep(s.w)
    requires Dispatches(s, f) && Enabled(s, OfTarget(f)) && !T.Resets(s.w.copy)
    ensures Faithful(Dispatched(s, f))
  {
    var c := Decode(s.w.copy).value;
    assert T.Step(s.w, f) == T.Work(s.w, f.data);
    DecodedGrows(s.executed, c, s.w.delivered);
    assert T.Work(s.w, f.data).t.memory == s.w.t.memory[..1] + f.data + s.w.t.memory[|f.data| + 1..];
  }

  lemma PostFaithful(s: System, size: nat)
    requires Ready(s) && Faithful(s) && T.InStep(s.w) && s.w.pc == T.Finishing(size)
    ensures Faithful(s.(w := T.Post(s.w, size)))
  {
    var t := T.WithChecksum(s.w.t, size);
    assert t.memory[..size][1] == s.w.t.memory[1];
  }

  lemma ClaimFaithful(s: System)
    requires Faithful(s) && s.w.pc == T.Copied
    ensures Faithful(s.(w := T.Claim(s.w)))
  {}

  lemma SameFaithful(s: System, v: T.World)
    requires Faithful(s) && v.delivered == s.w.delivered && v.replies == s.w.replies
    requires (v.pc.Working? || v.pc.Rebooted?) == (s.w.pc.Working? || s.w.pc.Rebooted?)
    requires v.pc.Finishing? == s.w.pc.Finishing?
    requires v.pc.Finishing? ==> v.t.memory == s.w.t.memory
    ensures Faithful(s.(w := v))
  {}

  /** The frame being worked on decodes unless it is the reset. */
  lemma WorkingDecodes(w: T.World)
    requires T.Inv(w) && w.pc == T.Working
    ensures Decode(w.copy).None? <==> T.Resets(w.copy)
  {
    assert w.received[|w.delivered| - 1] == w.copy;
    ValidFrameDecodes(w.copy);
  }

  lemma MainFaithful(s: System, f: T.Event)
    requires Ready(s) && Faithful(s) && T.InStep(s.w) && f.MainStep? && T.Enabled(s.w, f) && !Dispatches(s, f)
    requires s.w.pc == T.Working ==> T.Resets(s.w.copy)
    ensures Faithful(s.(w := T.Step(s.w, f)))
  {
    match s.w.pc
    case Polling => SameFaithful(s, T.Step(s.w, f));
    case Copying => SameFaithful(s, T.Step(s.w, f));
    case Copied => ClaimFaithful(s);
    case Working => SameFaithful(s, T.Step(s.w, f));
    case Finishing(size) => PostFaithful(s, size);
    case Posted(size) => SameFaithful(s, T.Step(s.w, f));
    case Filling => SameFaithful(s, T.Step(s.w, f));
    case _ =>
  }

  lemma TargetFaithful(s: System, f: T.Event)
    requires Ready(s) && Inv(s) && Enabled(s, OfTarget(f))
    ensures Faithful(Step(s, OfTarget(f)))
  {
    if s.w.pc == T.Working { WorkingDecodes(s.w); }
    if !f.MainStep? {
      InterruptTouchesNone(s.w, f);
      SameFaithful(s, T.Step(s.w, f));
    } else if Dispatches(s, f) {
      DispatchFaithful(s, f);
    } else {
      MainFaithful(s, f);
    }
  }

  lemma InvReady(s: System)
    requires Inv(s)
    ensures Ready(s)
  {}

  lemma StepKeeps(s: System, e: Event)
    requires Ready(s) && Inv(s)
    ensures Inv(Step(s, e))
  {
    if Enabled(s, e) {
      match e
      case OfTarget(f) =>
        TP.StepKeeps(s.w, f);
        TargetFaithful(s, f);
        if Dispatches(s, f) { BP.ExecuteKeeps(s.b, Decode(s.w.copy).value); }
      case OfBoard(f) => BP.StepKeeps(s.b, f);
    }
  }

  lemma {:induction false} RunInv(s: System, es: seq<Event>)
    requires Ready(s) && Inv(s)
    ensures Inv(Run(s, es))
  {
    if es != [] {
      RunInv(s, es[..|es| - 1]);
      StepKeeps(Run(s, es[..|es| - 1]), es[|es| - 1]);
    }
  }

  function Start(memory: seq<bv8>): System {
    System(T.Start(memory), B.Start(), [], [])
  }

  lemma StartKeeps(memory: seq<bv8>)
    requires |memory| == T.RESPONSE_CAPACITY
    ensures Ready(Start(memory)) && Inv(Start(memory))
  {
    TP.StartKeeps(memory);
    BP.StartKeeps();
  }

  /**
   * In every run of the board: the commands executed are, in order, what the delivered frames say,
   * and every reply but a status report carries the result of its command.
   */
  lemma RunKeeps(memory: seq<bv8>, es: seq<Event>)
    requires |memory| == T.RESPONSE_CAPACITY
    ensures Ready(Start(memory)) && Inv(Run(Start(memory), es))
    ensures var s := Run(Start(memory), es);
      Decoded(s.executed, s.w.delivered) && AllCarried(s.w.replies, s.executed, s.results)
  {
    StartKeeps(memory);
    RunInv(Start(memory), es);
  }

  // ---- From the bus to the actuators ----

  /** The frame waits to be claimed, or is being worked on, or has been executed as command number k. */
  predicate Taking(v: T.World, frame: seq<bv8>, k: nat, steps: nat) {
    if |v.delivered| == k then
      T.Undelivered(v) && v.t.command == frame && steps + TP.TakeLeft(v.pc) < 5 && TP.TakeLeft(v.pc) > 0
    else
      && |v.delivered| > k && v.delivered[k] == frame
      && (|v.delivered| == k + 1 && v.pc == T.Working ==> steps < 5)
      && !(|v.delivered| == k + 1 && v.pc == T.Rebooted)
  }

  lemma WaitingMain(v: T.World, f: T.Event, frame: seq<bv8>, k: nat, steps: nat)
    requires T.Handshake(v) && Taking(v, frame, k, steps) && |v.delivered| == k && TP.IsMain(v, f)
    ensures Taking(T.Step(v, f), frame, k, steps + 1)
  {}

  lemma TakenMain(v: T.World, f: T.Event, frame: seq<bv8>, k: nat, steps: nat)
    requires T.Handshake(v) && Taking(v, frame, k, steps) && |v.delivered| > k
    requires v.pc == T.Working ==> v.delivered[|v.delivered| - 1] == v.copy
    requires !T.Resets(frame) && TP.IsMain(v, f)
    ensures Taking(T.Step(v, f), frame, k, steps + 1)
  {}

  lemma TakingMain(v: T.World, f: T.Event, frame: seq<bv8>, k: nat, steps: nat)
    requires T.Handshake(v) && T.Answered(v) && Taking(v, frame, k, steps) && !T.Resets(frame) && TP.IsMain(v, f)
    ensures Taking(T.Step(v, f), frame, k, steps + 1)
  {
    if |v.delivered| == k { WaitingMain(v, f, frame, k, steps); } else { TakenMain(v, f, frame, k, steps); }
  }

  lemma TakingStep(v: T.World, f: T.Event, frame: seq<bv8>, k: nat, steps: nat)
    requires T.Handshake(v) && T.Answered(v) && Taking(v, frame, k, steps) && !T.Resets(frame)
    ensures Taking(T.Step(v, f), frame, k, steps + if TP.IsMain(v, f) then 1 else 0)
  {
    if TP.IsMain(v, f) {
      TakingMain(v, f, frame, k, steps);
    } else if T.Enabled(v, f) && f.RxFullIrq? {
      TP.RxPhases(v.t, f.group, f.fillers);
    }
  }

  lemma RunAnswered(w: T.World, fs: seq<T.Event>)
    requires T.Inv(w)
    ensures T.Handshake(TP.Run(w, fs)) && T.Answered(TP.Run(w, fs))
  {
    TP.RunInv(w, fs);
  }

  lemma {:induction false} TakingRun(w: T.World, fs: seq<T.Event>, frame: seq<bv8>, k: nat)
    requires T.Inv(w) && Taking(w, frame, k, 0) && !T.Resets(frame)
    ensures Taking(TP.Run(w, fs), frame, k, TP.MainSteps(w, fs))
  {
    if fs != [] {
      var init := fs[..|fs| - 1];
      TakingRun(w, init, frame, k);
      RunAnswered(w, init);
      TakingStep(TP.Run(w, init), fs[|fs| - 1], frame, k, TP.MainSteps(w, init));
    }
  }

  lemma SameLast(a: seq<seq<bv8>>, x: seq<bv8>, b: seq<seq<bv8>>, y: seq<bv8>)
    requires a + [x] == b + [y]
    ensures a == b && x == y
  {
    assert (a + [x])[..|a|] == a && (b + [y])[..|b|] == b && (a + [x])[|a|] == x && (b + [y])[|b|] == y;
  }

  lemma UndeliveredTaking(w: T.World, before: seq<seq<bv8>>, frame: seq<bv8>)
    requires T.InStep(w) && T.Undelivered(w) && w.delivered == before && w.t.command == frame
    ensures Taking(w, frame, |before|, 0)
  {}

  lemma DeliveredTaking(w: T.World, before: seq<seq<bv8>>, frame: seq<bv8>)
    requires T.Answered(w) && w.delivered == before + [frame] && !T.Resets(frame)
    ensures Taking(w, frame, |before|, 0)
  {}

  /** A frame that has just been received whole is being taken. */
  lemma ReceivedTaking(w: T.World, before: seq<seq<bv8>>, frame: seq<bv8>)
    requires T.Inv(w) && w.received == before + [frame] && !T.Resets(frame)
    ensures Taking(w, frame, |before|, 0)
  {
    TP.NotYetDelivered(w);
    if T.Undelivered(w) {
      SameLast(w.delivered, w.t.command, before, frame);
      UndeliveredTaking(w, before, frame);
    } else {
      assert w.delivered + [] == w.delivered;
      DeliveredTaking(w, before, frame);
    }
  }

  /** How many steps the main loop has made in a run. */
  function MainSteps(s: System, es: seq<Event>): nat
    requires Ready(s)
  {
    TP.MainSteps(s.w, TargetEvents(s, es))
  }

  /** The words that the run has taken from the bus. */
  function Sent(s: System, es: seq<Event>): seq<P.RxWord>
    requires Ready(s)
  {
    TP.Sent(s.w, TargetEvents(s, es))
  }

  lemma TakenIsExecuted(v: System, frame: seq<bv8>, k: nat, steps: nat)
    requires Faithful(v) && Taking(v.w, frame, k, steps) && steps >= 5
    ensures |v.executed| > k && Decode(frame) == Some(v.executed[k])
  {}

  /**
   * A frame sent to an idle board is executed as the next command, with the meaning that its bytes
   * have, after at most five more steps of the main loop; whatever interrupts, alarms and steps
   * come between its bytes and after them.
   */
  lemma CommandExecuted(s: System, frame: seq<bv8>, es: seq<Event>, more: seq<Event>)
    requires Ready(s) && Inv(s) && s.w.t.phase == T.Idle && P.ValidFrame(frame) && !T.Resets(frame)
    requires Sent(s, es) == P.AsWords(frame) && MainSteps(Run(s, es), more) >= 5
    ensures var v, k := Run(Run(s, es), more), |s.w.delivered|;
      |v.executed| > k && Decode(frame) == Some(v.executed[k])
  {
    var u := Run(s, es);
    var v := Run(u, more);
    TargetRuns(s, es);
    TP.CommandDelivered(s.w, frame, TargetEvents(s, es), []);
    RunInv(s, es);
    ReceivedTaking(u.w, s.w.delivered, frame);
    TargetRuns(u, more);
    TakingRun(u.w, TargetEvents(u, more), frame, |s.w.delivered|);
    RunInv(u, more);
    TakenIsExecuted(v, frame, |s.w.delivered|, MainSteps(u, more));
  }

  /** How many responses have been read to their end. */
  function Ended(s: System, es: seq<Event>): nat
    requires Ready(s)
  {
    X.Ended(s.w, TargetEvents(s, es))
  }

  /** A frame is sent to the idle board, answered, and the answer read to its end. */
  ghost predicate Exchanged(s: System, frame: seq<bv8>, es: seq<Event>, more: seq<Event>)
    requires Ready(s)
  {
    && Sent(s, es) == P.AsWords(frame) && Ended(s, es) == 0
    && Ended(Run(s, es), more) == 0 && MainSteps(Run(s, es), more) >= 7
    && Enabled(Run(Run(s, es), more), OfTarget(T.RxDoneIrq))
  }

  function AfterRead(s: System, es: seq<Event>, more: seq<Event>): (u: System)
    requires Ready(s)
    ensures Ready(u)
  {
    Run(Run(Run(s, es), more), [OfTarget(T.RxDoneIrq)])
  }

  lemma RunSingle(s: System, e: Event)
    requires Ready(s)
    ensures Run(s, [e]) == Step(s, e)
  {
    assert [e][..0] == [];
    assert Run(s, []) == s;
  }

  lemma ReadEnds(s: System)
    requires Ready(s) && Inv(s) && s.w.t.phase == T.Responding && Enabled(s, OfTarget(T.RxDoneIrq))
    ensures var u := Run(s, [OfTarget(T.RxDoneIrq)]);
      Inv(u) && u.w.t.phase == T.Idle && u.w.delivered == s.w.delivered
  {
    RunSingle(s, OfTarget(T.RxDoneIrq));
    StepKeeps(s, OfTarget(T.RxDoneIrq));
  }

  /** The board is idle, with these frames delivered. */
  ghost predicate IdleAfter(u: System, delivered: seq<seq<bv8>>) {
    Ready(u) && Inv(u) && u.w.t.phase == T.Idle && u.w.delivered == delivered
  }

  /** After the exchange the board is idle again, and the frame has been delivered and nothing else. */
  lemma ExchangeDone(s: System, frame: seq<bv8>, es: seq<Event>, more: seq<Event>)
    requires Ready(s) && Inv(s) && s.w.t.phase == T.Idle && P.ValidFrame(frame) && !T.Resets(frame)
    requires Exchanged(s, frame, es, more)
    ensures IdleAfter(AfterRead(s, es, more), s.w.delivered + [frame])
  {
    TargetRuns(s, es);
    TargetRuns(Run(s, es), more);
    X.FrameAnswered(s.w, frame, TargetEvents(s, es), TargetEvents(Run(s, es), more));
    RunInv(s, es);
    RunInv(Run(s, es), more);
    ReadEnds(Run(Run(s, es), more));
  }

  lemma DeliveredStays(s: System, es: seq<Event>)
    requires Ready(s)
    ensures s.w.delivered <= Run(s, es).w.delivered
  {
    TargetRuns(s, es);
    TP.DeliveredStays(s.w, TargetEvents(s, es));
  }

  lemma ExecutedIsDelivered(v: System, frame: seq<bv8>, before: seq<seq<bv8>>)
    requires Faithful(v) && before + [frame] <= v.w.delivered && |v.executed| > |before|
    ensures Decode(frame) == Some(v.executed[|before|])
  {
    assert v.w.delivered[|before|] == (before + [frame])[|before|];
  }

  lemma StillExecuted(u: System, frame: seq<bv8>, before: seq<seq<bv8>>, fs: seq<Event>, last: seq<Event>)
    requires Ready(u) && Inv(u) && u.w.delivered == before + [frame]
    requires |Run(Run(u, fs), last).executed| > |before|
    ensures Decode(frame) == Some(Run(Run(u, fs), last).executed[|before|])
  {
    DeliveredStays(u, fs);
    DeliveredStays(Run(u, fs), last);
    RunInv(u, fs);
    RunInv(Run(u, fs), last);
    ExecutedIsDelivered(Run(Run(u, fs), last), frame, before);
  }

  /** The frame is sent, and the main loop has time to take it. */
  ghost predicate SentAndTaken(s: System, frame: seq<bv8>, es: seq<Event>, more: seq<Event>)
    requires Ready(s)
  {
    Sent(s, es) == P.AsWords(frame) && MainSteps(Run(s, es), more) >= 5
  }

  /** From command number k on, these frames have been executed. */
  predicate ExecutedFrom(executed: seq<B.Command>, k: nat, frames: seq<seq<bv8>>) {
    forall i :: 0 <= i < |frames| ==> k + i < |executed| && Decode(frames[i]) == Some(executed[k + i])
  }

  lemma TwoFrom(executed: seq<B.Command>, k: nat, next: nat, a: seq<bv8>, b: seq<bv8>)
    requires next == k + 1 && |executed| > next && Decode(a) == Some(executed[k]) && Decode(b) == Some(executed[next])
    ensures ExecutedFrom(executed, k, [a, b])
  {}

  /** From command number k on, these commands have been executed. */
  predicate CommandsFrom(executed: seq<B.Command>, k: nat, commands: seq<B.Command>) {
    forall i :: 0 <= i < |commands| ==> k + i < |executed| && executed[k + i] == commands[i]
  }

  lemma FromTwo(executed: seq<B.Command>, k: nat, frame: seq<bv8>, c: B.Command)
    requires ExecutedFrom(executed, k, [frame, frame]) && Decode(frame) == Some(c)
    ensures CommandsFrom(executed, k, [c, c])
  {
    assert [frame, frame][0] == frame && [frame, frame][1] == frame;
  }

  lemma NextExecuted(u: System, a: seq<bv8>, b: seq<bv8>, before: seq<seq<bv8>>, es: seq<Event>, more: seq<Event>)
    requires IdleAfter(u, before + [a])
    requires P.ValidFrame(b) && !T.Resets(b) && SentAndTaken(u, b, es, more)
    ensures ExecutedFrom(Run(Run(u, es), more).executed, |before|, [a, b])
  {
    CommandExecuted(u, b, es, more);
    StillExecuted(u, a, before, es, more);
    TwoFrom(Run(Run(u, es), more).executed, |before|, |u.w.delivered|, a, b);
  }

  /** Two frames one after the other, the answer to the first read to its end: both are executed, in order. */
  lemma BothExecuted(s: System, a: seq<bv8>, b: seq<bv8>, es: seq<Event>, more: seq<Event>, fs: seq<Event>, last: seq<Event>)
    requires Ready(s) && Inv(s) && s.w.t.phase == T.Idle
    requires P.ValidFrame(a) && !T.Resets(a) && P.ValidFrame(b) && !T.Resets(b)
    requires Exchanged(s, a, es, more) && SentAndTaken(AfterRead(s, es, more), b, fs, last)
    ensures ExecutedFrom(Run(Run(AfterRead(s, es, more), fs), last).executed, |s.w.delivered|, [a, b])
  {
    ExchangeDone(s, a, es, more);
    NextExecuted(AfterRead(s, es, more), a, b, s.w.delivered, fs, last);
  }

  /** The reset frame is not executed as a command: it reboots the board after at most five more steps of the main loop. */
  lemma ResetReboots(s: System, frame: seq<bv8>, es: seq<Event>, more: seq<Event>)
    requires Ready(s) && Inv(s) && s.w.t.phase == T.Idle && P.ValidFrame(frame) && T.Resets(frame)
    requires Sent(s, es) == P.AsWords(frame) && Ended(s, es) == 0
    requires Ended(Run(s, es), more) == 0 && MainSteps(Run(s, es), more) >= 5
    ensures var v := Run(Run(s, es), more); v.w.pc == T.Rebooted && |v.executed| == |s.w.delivered|
  {
    TargetRuns(s, es);
    TargetRuns(Run(s, es), more);
    X.ResetReboots(s.w, frame, TargetEvents(s, es), TargetEvents(Run(s, es), more));
    RunInv(s, es);
    RunInv(Run(s, es), more);
  }

  // ---- The kill command, end to end ----

  predicate Asserting(b: B.Board)
    requires B.WellFormed(b)
  {
    b.safety.switches[0].enabled && b.safety.switches[0].asserting
  }

  /** Command number k was a kill, and none after it has released the switch. */
  predicate KillStands(commands: seq<B.Command>, k: nat) {
    && |commands| > k && commands[k] == B.SetKillSwitch(true)
    && forall i :: k < i < |commands| ==> commands[i] != B.SetKillSwitch(false)
  }

  predicate Latched(s: System, k: nat)
    requires Ready(s)
  {
    KillStands(s.executed, k) ==> Asserting(s.b)
  }

  lemma KillAsserts(b: B.Board)
    requires B.WellFormed(b)
    ensures B.WellFormed(B.Execute(b, B.SetKillSwitch(true)).0) && Asserting(B.Execute(b, B.SetKillSwitch(true)).0)
  {
    var c := b.(safety := KillSwitch.Update(b.safety, 0, true, true, b.now));
    BP.KillSwitchWellFormed(b, true);
    BP.KillKeepsSafety(c);
  }

  lemma OthersKeepAsserting(b: B.Board, c: B.Command)
    requires B.WellFormed(b) && Asserting(b) && c != B.SetKillSwitch(false)
    ensures B.WellFormed(B.Execute(b, c).0) && Asserting(B.Execute(b, c).0)
  {
    BP.CommandWellFormed(b, c);
    if c == B.SetKillSwitch(true) {
      KillAsserts(b);
    } else {
      OtherKeepsSafety(b, c);
    }
  }

  lemma OtherKeepsSafety(b: B.Board, c: B.Command)
    requires B.WellFormed(b) && !c.SetKillSwitch?
    ensures B.Execute(b, c).0.safety == b.safety
  {}

  lemma EventKeepsAsserting(b: B.Board, f: B.Event)
    requires B.WellFormed(b) && Asserting(b) && !f.Do?
    ensures B.WellFormed(B.Step(b, f)) && Asserting(B.Step(b, f))
  {
    BP.StepWellFormed(b, f);
    if f == B.Tick { BP.KillKeepsSafety(b.(safety := KillSwitch.Refresh(b.safety, b.now))); }
  }

  lemma StandsBefore(commands: seq<B.Command>, c: B.Command, k: nat)
    requires KillStands(commands + [c], k)
    ensures |commands| == k ==> c == B.SetKillSwitch(true)
    ensures |commands| != k ==> KillStands(commands, k) && c != B.SetKillSwitch(false)
  {
    var all := commands + [c];
    assert all[|commands|] == c;
    if |commands| != k {
      assert commands[k] == all[k];
      forall i | k < i < |commands| ensures commands[i] != B.SetKillSwitch(false) { assert commands[i] == all[i]; }
    }
  }

  lemma StepLatched(s: System, e: Event, k: nat)
    requires Ready(s) && Latched(s, k)
    ensures Ready(Step(s, e)) && Latched(Step(s, e), k)
  {
    StepReady(s, e);
    if Enabled(s, e) && KillStands(Step(s, e).executed, k) {
      match e
      case OfTarget(f) =>
        if Dispatches(s, f) {
          var c := Decode(s.w.copy).value;
          StandsBefore(s.executed, c, k);
          if |s.executed| == k { KillAsserts(s.b); } else { OthersKeepAsserting(s.b, c); }
        }
      case OfBoard(f) => EventKeepsAsserting(s.b, f);
    }
  }

  lemma {:induction false} RunLatched(s: System, es: seq<Event>, k: nat)
    requires Ready(s) && Latched(s, k)
    ensures Latched(Run(s, es), k)
  {
    if es != [] {
      RunLatched(s, es[..|es| - 1], k);
      StepLatched(Run(s, es[..|es| - 1]), es[|es| - 1], k);
    }
  }

  lemma AssertingIsOff(b: B.Board)
    requires B.Inv(b) && Asserting(b)
    ensures b.safety.killed && B.AllOff(b) && b.timer.alarms == map[]
  {}

  /**
   * The kill command that the coprocessor sends to an idle board switches everything off after at most
   * five more steps of the main loop, and all stays off until a later command releases the kill:
   * whatever interrupts, alarms, ticks and other commands come between.
   */
  lemma KillFrameStops(s: System, es: seq<Event>, more: seq<Event>)
    requires Ready(s) && Inv(s) && s.w.t.phase == T.Idle
    requires Sent(s, es) == P.AsWords(Frame(B.SetKillSwitch(true))) && MainSteps(Run(s, es), more) >= 5
    ensures var v, k := Run(Run(s, es), more), |s.w.delivered|;
      && |v.executed| > k && v.executed[k] == B.SetKillSwitch(true)
      && ((forall i :: k < i < |v.executed| ==> v.executed[i] != B.SetKillSwitch(false)) ==>
            v.b.safety.killed && B.AllOff(v.b) && v.b.timer.alarms == map[])
  {
    var frame, k := Frame(B.SetKillSwitch(true)), |s.w.delivered|;
    FrameDecodes(B.SetKillSwitch(true));
    CommandExecuted(s, frame, es, more);
    var v := Run(Run(s, es), more);
    RunInv(s, es);
    RunInv(Run(s, es), more);
    assert Latched(s, k);
    RunLatched(s, es, k);
    RunLatched(Run(s, es), more, k);
    if KillStands(v.executed, k) { AssertingIsOff(v.b); }
  }

  /** Two kill commands in a row are both executed. */
  lemma KillFramesBothExecuted(s: System, es: seq<Event>, more: seq<Event>, fs: seq<Event>, last: seq<Event>)
    requires Ready(s) && Inv(s) && s.w.t.phase == T.Idle
    requires Exchanged(s, Frame(B.SetKillSwitch(true)), es, more)
    requires SentAndTaken(AfterRead(s, es, more), Frame(B.SetKillSwitch(true)), fs, last)
    ensures CommandsFrom(Run(Run(AfterRead(s, es, more), fs), last).executed, |s.w.delivered|,
                         [B.SetKillSwitch(true), B.SetKillSwitch(true)])
  {
    var frame, v := Frame(B.SetKillSwitch(true)), Run(Run(AfterRead(s, es, more), fs), last);
    FrameDecodes(B.SetKillSwitch(true));
    BothExecuted(s, frame, frame, es, more, fs, last);
    FromTwo(v.executed, |s.w.delivered|, frame, B.SetKillSwitch(true));
  }
}
