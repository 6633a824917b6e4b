/**
 * Whole exchanges with the actuator board's I2C target: a frame comes in, its answer is read, and
 * the board is ready for the next frame.
 */
module I2cTargetExchange {
  import opened I2cTargetSpec
  import opened I2cTargetProofs
  import P = ActuatorProtocol
  import Crc8

  /** The controller has read a response to its end. */
  predicate EndsResponse(w: World, e: Event) {
    Enabled(w, e) && e == RxDoneIrq && w.t.phase == Responding
  }

  function Ended(w: World, es: seq<Event>): nat
    requires Ready(w)
  {
    if es == [] then 0
    else Ended(w, es[..|es| - 1]) + if EndsResponse(Run(w, es[..|es| - 1]), es[|es| - 1]) then 1 else 0
  }

  // ---- From the frame to its answer ----

  /** How many steps of the main loop there are before the answer can be read. */
  function BusyLeft(pc: Pc): nat {
    match pc
    case Working => 3
    case Finishing(_) => 2
    case Posted(_) => 1
    case _ => 0
  }

  predicate BeingAnswered(v: World, steps: nat) {
    if Busy(v.pc) then v.pc != Rebooted && steps + BusyLeft(v.pc) <= 7
    else v.t.phase == Responding && (v.pc == Polling || v.pc == Filling)
  }

  /** The frame has been received and is on its way to being answered, or to rebooting the board. */
  predicate OnItsWay(before: seq<seq<bv8>>, frame: seq<bv8>, v: World, steps: nat) {
    if v.delivered == before then
      Undelivered(v) && v.t.command == frame && TakeLeft(v.pc) > 0 && steps + TakeLeft(v.pc) + 3 <= 7
    else
      && v.delivered == before + [frame]
      && if Resets(frame) then v.pc == Rebooted || (v.pc == Working && steps + 3 <= 7)
         else BeingAnswered(v, steps)
  }

  lemma WaitingMain(before: seq<seq<bv8>>, frame: seq<bv8>, v: World, e: Event, steps: nat)
    requires Sized(v.t) && SizedPc(v.pc) && InStep(v) && v.delivered == before
    requires OnItsWay(before, frame, v, steps) && IsMain(v, e)
    ensures OnItsWay(before, frame, Step(v, e), steps + 1)
  {}

  lemma TakenMain(before: seq<seq<bv8>>, frame: seq<bv8>, v: World, e: Event, steps: nat)
    requires Sized(v.t) && SizedPc(v.pc) && InStep(v) && v.delivered == before + [frame]
    requires OnItsWay(before, frame, v, steps) && IsMain(v, e) && (v.pc == Working ==> v.copy == frame)
    ensures OnItsWay(before, frame, Step(v, e), steps + 1)
  {}

  lemma OnItsWayMain(before: seq<seq<bv8>>, frame: seq<bv8>, v: World, e: Event, steps: nat)
    requires Handshake(v) && Answered(v) && OnItsWay(before, frame, v, steps) && IsMain(v, e)
    ensures OnItsWay(before, frame, Step(v, e), steps + 1)
  {
    if v.delivered == before { WaitingMain(before, frame, v, e, steps); } else { TakenMain(before, frame, v, e, steps); }
  }

  lemma OnItsWayIrq(before: seq<seq<bv8>>, frame: seq<bv8>, v: World, e: Event, steps: nat)
    requires Handshake(v) && OnItsWay(before, frame, v, steps) && !e.MainStep? && !EndsResponse(v, e)
    ensures OnItsWay(before, frame, Step(v, e), steps)
  {
    if Enabled(v, e) {
      match e
      case RxDoneIrq =>
      case TxEmptyIrq(room) => FillWrites(v.t, room);
      case RdReqIrq(room) => FillWrites(v.t, room);
      case RxFullIrq(group, fillers) => RxPhases(v.t, group, fillers);
    }
  }

  lemma OnItsWayStep(before: seq<seq<bv8>>, frame: seq<bv8>, v: World, e: Event, steps: nat)
    requires Handshake(v) && Answered(v) && OnItsWay(before, frame, v, steps) && !EndsResponse(v, e)
    ensures OnItsWay(before, frame, Step(v, e), steps + if IsMain(v, e) then 1 else 0)
  {
    if IsMain(v, e) {
      OnItsWayMain(before, frame, v, e, steps);
    } else if !e.MainStep? {
      OnItsWayIrq(before, frame, v, e, steps);
    }
  }

  lemma RunParts(w: World, es: seq<Event>)
    requires Inv(w)
    ensures Handshake(Run(w, es)) && Answered(Run(w, es)) && Accounted(Run(w, es))
  {
    RunInv(w, es);
  }

  lemma {:induction false} OnItsWayRun(before: seq<seq<bv8>>, frame: seq<bv8>, w: World, es: seq<Event>)
    requires Inv(w) && OnItsWay(before, frame, w, 0) && Ended(w, es) == 0
    ensures OnItsWay(before, frame, Run(w, es), MainSteps(w, es))
  {
    if es != [] {
      var init := es[..|es| - 1];
      OnItsWayRun(before, frame, w, init);
      RunParts(w, init);
      OnItsWayStep(before, frame, Run(w, init), es[|es| - 1], MainSteps(w, init));
    }
  }

  /** How far a frame has come of which k words have been sent. */
  ghost predicate ComingIn(before: seq<seq<bv8>>, frame: seq<bv8>, v: World, k: nat) {
    if k < |frame| then Open(v.t) && P.HasTaken(AsParser(v.t), frame, k) && v.delivered == before
    else OnItsWay(before, frame, v, 0)
  }

  /** The words that a step takes from the bus. */
  function Words(v: World, e: Event): seq<P.RxWord> {
    if e.RxFullIrq? && Enabled(v, e) then e.group else []
  }

  lemma OpenStays(v: World, e: Event)
    requires Handshake(v) && Open(v.t) && !e.RxFullIrq?
    ensures Open(Step(v, e).t) && AsParser(Step(v, e).t) == AsParser(v.t) && Step(v, e).delivered == v.delivered
  {}

  lemma SomeWords(v: World, frame: seq<bv8>, group: seq<P.RxWord>, fillers: nat, k: nat)
    requires Open(v.t) && P.ValidFrame(frame) && P.HasTaken(AsParser(v.t), frame, k)
    requires k + |group| < |frame| && P.Follows(group, frame, k)
    ensures var u := OnRxFull(v, group, fillers);
      Open(u.t) && P.HasTaken(AsParser(u.t), frame, k + |group|) && u.delivered == v.delivered
  {
    P.FrameTaken(AsParser(v.t), frame, k, group);
  }

  lemma FrameComplete(v: World, frame: seq<bv8>, group: seq<P.RxWord>, fillers: nat, k: nat)
    requires Open(v.t) && P.ValidFrame(frame) && k < |frame| && P.HasTaken(AsParser(v.t), frame, k)
    requires k + |group| == |frame| && P.Follows(group, frame, k)
    ensures var u := OnRxFull(v, group, fillers);
      u.t.phase == CmdReceived && u.t.command == frame && u.delivered == v.delivered && u.pc == v.pc
  {
    P.FrameTaken(AsParser(v.t), frame, k, group);
  }

  /** While the parser is open the main loop has nothing to do, or fills the queue once more. */
  lemma OpenPc(v: World)
    requires InStep(v) && Open(v.t)
    ensures TakeLeft(v.pc) > 0 && TakeLeft(v.pc) <= 4
  {}

  lemma LastWords(before: seq<seq<bv8>>, frame: seq<bv8>, v: World, group: seq<P.RxWord>, fillers: nat, k: nat)
    requires InStep(v) && P.ValidFrame(frame) && k < |frame| && ComingIn(before, frame, v, k) && P.Follows(group, frame, k)
    ensures ComingIn(before, frame, OnRxFull(v, group, fillers), k + |group|)
  {
    OpenPc(v);
    if k + |group| < |frame| { SomeWords(v, frame, group, fillers, k); } else { FrameComplete(v, frame, group, fillers, k); }
  }

  lemma ComingInStep(before: seq<seq<bv8>>, frame: seq<bv8>, v: World, e: Event, sent: seq<P.RxWord>)
    requires Handshake(v) && Answered(v) && P.ValidFrame(frame) && ComingIn(before, frame, v, |sent|)
    requires sent + Words(v, e) <= P.AsWords(frame) && !EndsResponse(v, e)
    ensures ComingIn(before, frame, Step(v, e), |sent + Words(v, e)|)
  {
    if |sent| == |frame| {
      OnItsWayStep(before, frame, v, e, 0);
    } else if e.RxFullIrq? && Enabled(v, e) {
      P.LastGroup(frame, sent, e.group);
      LastWords(before, frame, v, e.group, e.fillers, |sent|);
    } else if !e.RxFullIrq? {
      OpenStays(v, e);
    }
  }

  lemma {:induction false} ComingInRun(w: World, frame: seq<bv8>, es: seq<Event>)
    requires Inv(w) && w.t.phase == Idle && P.ValidFrame(frame) && Sent(w, es) <= P.AsWords(frame) && Ended(w, es) == 0
    ensures ComingIn(w.delivered, frame, Run(w, es), |Sent(w, es)|)
  {
    if es != [] {
      var n := |es| - 1;
      assert Sent(w, es[..n]) <= Sent(w, es);
      ComingInRun(w, frame, es[..n]);
      RunParts(w, es[..n]);
      ComingInStep(w.delivered, frame, Run(w, es[..n]), es[n], Sent(w, es[..n]));
    }
  }

  lemma FrameOnItsWay(w: World, frame: seq<bv8>, es: seq<Event>, more: seq<Event>)
    requires Inv(w) && w.t.phase == Idle && P.ValidFrame(frame) && Sent(w, es) == P.AsWords(frame)
    requires Ended(w, es) == 0 && Ended(Run(w, es), more) == 0
    ensures Inv(Run(Run(w, es), more))
    ensures OnItsWay(w.delivered, frame, Run(Run(w, es), more), MainSteps(Run(w, es), more))
  {
    ComingInRun(w, frame, es);
    RunInv(w, es);
    OnItsWayRun(w.delivered, frame, Run(w, es), more);
    RunInv(Run(w, es), more);
  }

  lemma AnswerIsOut(before: seq<seq<bv8>>, frame: seq<bv8>, v: World, steps: nat)
    requires Answered(v) && OnItsWay(before, frame, v, steps) && steps >= 7 && !Resets(frame)
    ensures v.t.phase == Responding && v.delivered == before + [frame] && !Busy(v.pc)
    ensures |v.replies| == |v.delivered| && v.posted == v.replies[|v.replies| - 1] && Answers(v.posted, frame)
  {}

  /**
   * A frame sent to an idle board is answered: unless the answer has been read to its end already,
   * it can be read after at most seven more steps of the main loop, whatever comes between.
   */
  lemma FrameAnswered(w: World, frame: seq<bv8>, es: seq<Event>, more: seq<Event>)
    requires Inv(w) && w.t.phase == Idle && P.ValidFrame(frame) && !Resets(frame) && Sent(w, es) == P.AsWords(frame)
    requires Ended(w, es) == 0 && Ended(Run(w, es), more) == 0 && MainSteps(Run(w, es), more) >= 7
    ensures var v := Run(Run(w, es), more);
      && Inv(v) && v.t.phase == Responding && v.delivered == w.delivered + [frame]
      && |v.replies| == |v.delivered| && v.posted == v.replies[|v.replies| - 1] && Answers(v.posted, frame)
  {
    FrameOnItsWay(w, frame, es, more);
    AnswerIsOut(w.delivered, frame, Run(Run(w, es), more), MainSteps(Run(w, es), more));
  }

  lemma ResetIsOut(before: seq<seq<bv8>>, frame: seq<bv8>, v: World, steps: nat)
    requires Answered(v) && OnItsWay(before, frame, v, steps) && steps >= 5 && Resets(frame)
    ensures v.pc == Rebooted && v.delivered == before + [frame] && |v.replies| == |before|
  {}

  /** The reset command is not answered: it reboots the board after at most five more steps of the main loop. */
  lemma ResetReboots(w: World, frame: seq<bv8>, es: seq<Event>, more: seq<Event>)
    requires Inv(w) && w.t.phase == Idle && P.ValidFrame(frame) && Resets(frame) && Sent(w, es) == P.AsWords(frame)
    requires Ended(w, es) == 0 && Ended(Run(w, es), more) == 0 && MainSteps(Run(w, es), more) >= 5
    ensures var v := Run(Run(w, es), more);
      v.pc == Rebooted && v.delivered == w.delivered + [frame] && |v.replies| == |w.delivered|
  {
    FrameOnItsWay(w, frame, es, more);
    ResetIsOut(w.delivered, frame, Run(Run(w, es), more), MainSteps(Run(w, es), more));
  }

  // ---- What the answer says ----

  /** The data of the dispatch is in the response buffer; once posted, it follows its checksum. */
  predicate Carrying(v: World, data: seq<bv8>, steps: nat) {
    && Sized(v.t) && 0 < |data| < RESPONSE_CAPACITY
    && if steps == 0 then v.pc == Finishing(|data| + 1) && v.t.memory[1..|data| + 1] == data
       else v.pc == Posted(|data| + 1) && v.posted == [Crc8.Checksum(data)] + data
  }

  lemma WorkCarries(w: World, e: Event)
    requires Ready(w) && IsMain(w, e) && w.pc == Working && !Resets(w.copy) && e.data != []
    ensures Carrying(Step(w, e), e.data, 0)
  {
    var memory := w.t.memory[..1] + e.data + w.t.memory[|e.data| + 1..];
    assert memory[1..|e.data| + 1] == e.data;
  }

  lemma PostCarries(v: World, data: seq<bv8>)
    requires Carrying(v, data, 0)
    ensures Carrying(Post(v, |data| + 1), data, 1)
  {
    var size := |data| + 1;
    var memory := WithChecksum(v.t, size).memory;
    assert memory[..size] == [memory[0]] + memory[1..size] && memory[1..size] == v.t.memory[1..size];
  }

  lemma CarryingStep(v: World, e: Event, data: seq<bv8>, steps: nat)
    requires Ready(v) && Carrying(v, data, steps) && steps + (if IsMain(v, e) then 1 else 0) <= 1
    ensures Carrying(Step(v, e), data, steps + if IsMain(v, e) then 1 else 0)
  {
    if IsMain(v, e) { PostCarries(v, data); }
  }

  /** The response is what the dispatch has answered, behind its checksum, whatever interrupts come before it is posted. */
  lemma {:induction false} ReplyCarriesData(w: World, es: seq<Event>, data: seq<bv8>)
    requires Ready(w) && Carrying(w, data, 0) && MainSteps(w, es) <= 1
    ensures Carrying(Run(w, es), data, MainSteps(w, es))
  {
    if es != [] {
      ReplyCarriesData(w, es[..|es| - 1], data);
      CarryingStep(Run(w, es[..|es| - 1]), es[|es| - 1], data, MainSteps(w, es[..|es| - 1]));
    }
  }

  // ---- The answer is read ----

  /** A response of which some has been queued, and some has not, keeps the transmit interrupt enabled. */
  predicate Pumped(w: World) {
    w.t.phase == Responding && 0 < w.t.bytesSent < w.t.responseSize ==> w.t.txEmptyMask
  }

  /** The room that a step offers to the response. */
  function Offer(w: World, e: Event): nat {
    if !Enabled(w, e) then 0
    else match e
      case TxEmptyIrq(room) => if w.t.txEmptyMask then room else 0
      case RdReqIrq(room) => room
      case MainStep(_, room, _) => if w.pc == Filling then room else 0
      case _ => 0
  }

  function Offered(w: World, es: seq<Event>): nat
    requires Ready(w)
  {
    if es == [] then 0 else Offered(w, es[..|es| - 1]) + Offer(Run(w, es[..|es| - 1]), es[|es| - 1])
  }

  lemma StepPumped(w: World, e: Event)
    requires Handshake(w) && Pumped(w)
    ensures Pumped(Step(w, e))
  {
    if Enabled(w, e) && e.RxFullIrq? { RxPhases(w.t, e.group, e.fillers); }
  }

  /** In every run, so the rest of a response that did not fit goes out as the queue empties. */
  lemma {:induction false} RunPumped(memory: seq<bv8>, es: seq<Event>)
    requires |memory| == RESPONSE_CAPACITY
    ensures Pumped(Run(Start(memory), es))
  {
    StartKeeps(memory);
    if es != [] {
      RunPumped(memory, es[..|es| - 1]);
      RunHandshake(Start(memory), es[..|es| - 1]);
      StepPumped(Run(Start(memory), es[..|es| - 1]), es[|es| - 1]);
    }
  }

  /** A response of this size is being read, of which this much has been queued. */
  predicate Reading(v: World, size: nat, sent: nat) {
    v.t.phase == Responding && v.t.responseSize == size && v.t.bytesSent == sent
  }

  lemma ResponseStep(v: World, e: Event, size: nat, sent: nat)
    requires Handshake(v) && Reading(v, size, sent) && !EndsResponse(v, e)
    ensures Reading(Step(v, e), size, Min(size, sent + Offer(v, e)))
  {
    if Enabled(v, e) && e.RxFullIrq? { RxPhases(v.t, e.group, e.fillers); }
  }

  /** Until the controller ends the read, the response is sent as far as there is room for it, and no further. */
  lemma {:induction false} ResponseProgress(w: World, es: seq<Event>, size: nat, sent: nat)
    requires Inv(w) && Reading(w, size, sent) && sent <= size && Ended(w, es) == 0
    ensures Reading(Run(w, es), size, Min(size, sent + Offered(w, es)))
  {
    if es != [] {
      var init := es[..|es| - 1];
      ResponseProgress(w, init, size, sent);
      RunHandshake(w, init);
      ResponseStep(Run(w, init), es[|es| - 1], size, Min(size, sent + Offered(w, init)));
    }
  }

  // ---- Exchange after exchange ----

  /** A frame is written, then answered, and the answer read to its end. */
  datatype Exchange = Exchange(frame: seq<bv8>, write: seq<Event>, answer: seq<Event>)

  ghost predicate Proper(w: World, x: Exchange)
    requires Ready(w)
  {
    && P.ValidFrame(x.frame) && !Resets(x.frame) && Sent(w, x.write) == P.AsWords(x.frame)
    && Ended(w, x.write) == 0 && Ended(Run(w, x.write), x.answer) == 0 && MainSteps(Run(w, x.write), x.answer) >= 7
    && Enabled(Run(Run(w, x.write), x.answer), RxDoneIrq)
  }

  function After(w: World, x: Exchange): (v: World)
    requires Ready(w)
    ensures Ready(v)
  {
    Run(Run(Run(w, x.write), x.answer), [RxDoneIrq])
  }

  /** The end of the read of a response leaves the parser open for the next frame. */
  lemma ReadEnds(w: World)
    requires Inv(w) && w.t.phase == Responding && Enabled(w, RxDoneIrq)
    ensures var v := Run(w, [RxDoneIrq]);
      && Inv(v) && v.t.phase == Idle && !v.t.txEmptyMask && !v.held
      && v.delivered == w.delivered && v.replies == w.replies && v.t.written == w.t.written
  {
    RunSingle(w, RxDoneIrq);
    StepKeeps(w, RxDoneIrq);
  }

  ghost predicate IdleAfter(v: World, delivered: seq<seq<bv8>>) {
    Inv(v) && v.t.phase == Idle && v.delivered == delivered && |v.replies| == |delivered| && AllAnswered(v.replies, delivered)
  }

  lemma ExchangeDone(w: World, x: Exchange)
    requires Inv(w) && w.t.phase == Idle && Proper(w, x)
    ensures var v := After(w, x);
      IdleAfter(v, w.delivered + [x.frame]) && Answers(v.replies[|v.replies| - 1], x.frame)
  {
    FrameAnswered(w, x.frame, x.write, x.answer);
    ReadEnds(Run(Run(w, x.write), x.answer));
  }

  function AfterAll(w: World, xs: seq<Exchange>): (v: World)
    requires Ready(w)
    ensures Ready(v)
  {
    if xs == [] then w else After(AfterAll(w, xs[..|xs| - 1]), xs[|xs| - 1])
  }

  ghost predicate AllProper(w: World, xs: seq<Exchange>)
    requires Ready(w)
  {
    xs != [] ==> AllProper(w, xs[..|xs| - 1]) && Proper(AfterAll(w, xs[..|xs| - 1]), xs[|xs| - 1])
  }

  function Frames(xs: seq<Exchange>): (frames: seq<seq<bv8>>)
    ensures |frames| == |xs|
  {
    seq(|xs|, i requires 0 <= i < |xs| => xs[i].frame)
  }

  /**
   * Any number of exchanges, one after another: each frame is delivered and answered, in order, and
   * after each of them the board is idle again.
   */
  lemma {:induction false} Conversation(w: World, xs: seq<Exchange>)
    requires Inv(w) && w.t.phase == Idle && AllProper(w, xs)
    ensures IdleAfter(AfterAll(w, xs), w.delivered + Frames(xs))
  {
    if xs == [] {
      assert w.delivered + Frames(xs) == w.delivered;
    } else {
      EarlierProper(w, xs);
      Conversation(w, xs[..|xs| - 1]);
      OneExchange(w, xs);
      FramesGrow(w.delivered, xs);
    }
  }

  lemma FramesGrow(before: seq<seq<bv8>>, xs: seq<Exchange>)
    requires xs != []
    ensures before + Frames(xs[..|xs| - 1]) + [xs[|xs| - 1].frame] == before + Frames(xs)
  {}

  lemma EarlierProper(w: World, xs: seq<Exchange>)
    requires Ready(w) && xs != [] && AllProper(w, xs)
    ensures AllProper(w, xs[..|xs| - 1])
  {}

  lemma OneExchange(w: World, xs: seq<Exchange>)
    requires Ready(w) && xs != [] && AllProper(w, xs)
    requires IdleAfter(AfterAll(w, xs[..|xs| - 1]), w.delivered + Frames(xs[..|xs| - 1]))
    ensures IdleAfter(AfterAll(w, xs), w.delivered + Frames(xs[..|xs| - 1]) + [xs[|xs| - 1].frame])
  {
    ExchangeDone(AfterAll(w, xs[..|xs| - 1]), xs[|xs| - 1]);
  }
}
