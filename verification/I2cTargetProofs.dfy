/** What every run of the actuator board's I2C target keeps. */
module I2cTargetProofs {
  import opened I2cTargetSpec
  import P = ActuatorProtocol

  // ---- The queue ----

  lemma {:induction false} BytesConcat(a: seq<Out>, b: seq<Out>)
    ensures Bytes(a + b) == Bytes(a) + Bytes(b)
  {
    if b == [] {
      assert a + b == a;
    } else {
      var n := |b| - 1;
      assert (a + b)[..|a + b| - 1] == a + b[..n];
      BytesConcat(a, b[..n]);
    }
  }

  lemma {:induction false} BytesOfData(bytes: seq<bv8>)
    ensures Bytes(AsData(bytes)) == bytes
  {
    if bytes != [] {
      var n := |bytes| - 1;
      assert AsData(bytes)[..n] == AsData(bytes[..n]);
      BytesOfData(bytes[..n]);
      assert bytes == bytes[..n] + [bytes[n]];
    }
  }

  /** Appending to the queue appends to what was queued since the mark. */
  lemma SinceMark(written: seq<Out>, mark: nat, more: seq<Out>)
    requires mark <= |written|
    ensures (written + more)[mark..] == written[mark..] + more
  {}

  lemma FillInOrder(written: seq<Out>, mark: nat, memory: seq<bv8>, posted: seq<bv8>, sent: nat, n: nat)
    requires mark <= |written| && sent + n <= |posted| <= |memory| && posted == memory[..|posted|]
    requires Bytes(written[mark..]) == posted[..sent]
    ensures Bytes((written + AsData(memory[sent..sent + n]))[mark..]) == posted[..sent + n]
  {
    SinceMark(written, mark, AsData(memory[sent..sent + n]));
    BytesConcat(written[mark..], AsData(memory[sent..sent + n]));
    BytesOfData(memory[sent..sent + n]);
    assert posted[..sent + n] == posted[..sent] + memory[sent..sent + n];
  }

  lemma {:induction false} FillersHaveNoBytes(n: nat)
    ensures Bytes(Fillers(n)) == []
  {
    if n > 0 {
      assert Fillers(n)[..n - 1] == Fillers(n - 1);
      FillersHaveNoBytes(n - 1);
    }
  }

  lemma FillersInOrder(written: seq<Out>, mark: nat, n: nat)
    requires mark <= |written|
    ensures Bytes((written + Fillers(n))[mark..]) == Bytes(written[mark..])
  {
    SinceMark(written, mark, Fillers(n));
    BytesConcat(written[mark..], Fillers(n));
    FillersHaveNoBytes(n);
  }

  lemma FillKeepsOrder(w: World, room: nat)
    requires InOrder(w) && Exposed(w)
    ensures InOrder(w.(t := Fill(w.t, room)))
  {
    FillInOrder(w.t.written, w.mark, w.t.memory, w.posted, w.t.bytesSent, Min(room, w.t.responseSize - w.t.bytesSent));
  }

  lemma FillerKeepsOrder(w: World)
    requires InOrder(w)
    ensures InOrder(w.(t := WriteFiller(w.t)))
  {
    assert Fillers(1) == [Filler];
    FillersInOrder(w.t.written, w.mark, 1);
  }

  lemma PostKeepsOrder(w: World, size: nat)
    requires InOrder(w) && w.pc == Finishing(size) && SizedPc(w.pc) && InStep(w)
    ensures InOrder(Post(w, size))
  {
    if size > 0 {
      var w' := Post(w, size);
      ChecksumInFront(w.t, size);
      assert w'.t.written[w'.mark..] == [];
      assert w'.posted[..0] == [];
    }
  }

  lemma WorkKeepsOrder(w: World, data: seq<bv8>)
    requires InOrder(w) && w.pc == Working && InStep(w) && |data| < RESPONSE_CAPACITY
    ensures InOrder(Work(w, data))
  {}

  lemma CommitKeepsOrder(w: World, size: nat)
    requires InOrder(w) && w.pc == Posted(size) && InStep(w)
    ensures InOrder(Commit(w, size))
  {}

  lemma MainKeepsOrder(w: World, data: seq<bv8>, room: nat, starved: bool)
    requires InOrder(w) && SizedPc(w.pc) && InStep(w) && |data| < RESPONSE_CAPACITY
    ensures InOrder(Main(w, data, room, starved))
  {
    match w.pc
    case Working => WorkKeepsOrder(w, data);
    case Finishing(size) => PostKeepsOrder(w, size);
    case Posted(size) => CommitKeepsOrder(w, size);
    case Filling => FillKeepsOrder(w, room);
    case _ =>
  }

  lemma RxKeepsOrder(w: World, group: seq<P.RxWord>, fillers: nat)
    requires InOrder(w)
    ensures InOrder(OnRxFull(w, group, fillers))
  {
    FillersInOrder(w.t.written, w.mark, fillers);
  }

  lemma StepKeepsOrder(w: World, e: Event)
    requires InOrder(w) && SizedPc(w.pc) && InStep(w)
    ensures InOrder(Step(w, e))
  {
    if Enabled(w, e) {
      match e
      case RxDoneIrq =>
      case TxEmptyIrq(room) => if w.t.phase == Responding { FillKeepsOrder(w, room); }
      case RdReqIrq(room) =>
        if w.t.phase == Responding { FillKeepsOrder(w, room); }
        FillerKeepsOrder(w);
      case RxFullIrq(group, fillers) => RxKeepsOrder(w, group, fillers);
      case MainStep(data, room, starved) => MainKeepsOrder(w, data, room, starved);
    }
  }

  // ---- The handshake ----

  lemma FillWrites(t: Target, room: nat)
    requires Sized(t)
    ensures Fill(t, room).written != t.written <==> room > 0 && t.bytesSent < t.responseSize
    ensures Fill(t, room).phase == t.phase
  {}

  /** What the reception of data does to the phase. */
  lemma RxPhases(t: Target, group: seq<P.RxWord>, fillers: nat)
    ensures var q := RxFull(t, group, fillers);
      if t.phase == Idle || t.phase == Receiving then q.phase == Idle || q.phase == Receiving || q.phase == CmdReceived
      else q == t.(written := q.written)
    ensures RxFull(t, group, fillers).written == t.written <==> fillers == 0
  {
    assert RxFull(t, group, fillers).written == t.written + Fillers(fillers);
  }

  lemma RxKeepsHandshake(w: World, group: seq<P.RxWord>, fillers: nat)
    requires Handshake(w)
    ensures Handshake(OnRxFull(w, group, fillers))
  {
    RxPhases(w.t, group, fillers);
  }

  lemma FillKeepsHandshake(w: World, room: nat)
    requires Handshake(w) && w.pc == Filling && (w.held ==> room > 0)
    ensures Handshake(Update(w, Fill(w.t, room)).(pc := Polling))
  {
    FillWrites(w.t, room);
  }

  lemma MainKeepsHandshake(w: World, data: seq<bv8>, room: nat, starved: bool)
    requires Handshake(w) && (Undelivered(w) ==> Answerable(w.t.command))
    requires |data| < RESPONSE_CAPACITY && (w.pc == Working ==> |data| == ReplyLength(w.copy)) && (w.held ==> room > 0)
    ensures Handshake(Main(w, data, room, starved))
  {
    if w.pc == Filling { FillKeepsHandshake(w, room); }
  }

  lemma ReadKeepsHandshake(w: World, room: nat)
    requires Handshake(w) && !w.held && room > 0
    ensures Handshake(OnRdReq(w, room))
  {
    FillWrites(w.t, room);
  }

  lemma TxEmptyKeepsHandshake(w: World, room: nat)
    requires Handshake(w)
    ensures Handshake(Update(w, TxEmpty(w.t, room)))
  {
    FillWrites(w.t, room);
  }

  lemma RxDoneKeepsHandshake(w: World)
    requires Handshake(w) && !w.held
    ensures Handshake(Update(w, RxDone(w.t)))
  {}

  lemma StepKeepsHandshake(w: World, e: Event)
    requires Handshake(w) && (Undelivered(w) ==> Answerable(w.t.command))
    ensures Handshake(Step(w, e))
  {
    if Enabled(w, e) {
      match e
      case RxDoneIrq => RxDoneKeepsHandshake(w);
      case TxEmptyIrq(room) => TxEmptyKeepsHandshake(w, room);
      case RdReqIrq(room) => ReadKeepsHandshake(w, room);
      case RxFullIrq(group, fillers) => RxKeepsHandshake(w, group, fillers);
      case MainStep(data, room, starved) => MainKeepsHandshake(w, data, room, starved);
    }
  }

  // ---- The commands ----

  lemma RxTracks(t: Target, heard: seq<P.RxWord>, group: seq<P.RxWord>, fillers: nat)
    requires (t.phase == Idle || t.phase == Receiving) && P.Tracks(AsParser(t), heard)
    ensures var q := RxFull(t, group, fillers);
      && P.Tracks(AsParser(q), heard + group)
      && (q.phase == CmdReceived ==> P.ValidFrame(q.command))
  {
    P.OnGroupTracks(AsParser(t), heard, group);
  }

  lemma RxKeepsAccount(w: World, group: seq<P.RxWord>, fillers: nat)
    requires Accounted(w)
    ensures Accounted(OnRxFull(w, group, fillers))
  {
    RxPhases(w.t, group, fillers);
    if w.t.phase == Idle || w.t.phase == Receiving {
      RxTracks(w.t, w.heard, group, fillers);
      assert !Undelivered(w);
    }
  }

  /** A step that leaves the receive buffer and the commands alone keeps the account. */
  lemma SameAccount(w: World, v: World)
    requires Accounted(w) && Undelivered(v) == Undelivered(w)
    requires v.received == w.received && v.delivered == w.delivered && v.heard == w.heard
    requires v.t.command == w.t.command && v.t.receiveSize == w.t.receiveSize
    requires (v.t.phase == Receiving) == (w.t.phase == Receiving)
    ensures Accounted(v)
  {}

  lemma MainKeepsAccount(w: World, data: seq<bv8>, room: nat, starved: bool)
    requires Accounted(w) && InStep(w) && Sized(w.t) && SizedPc(w.pc) && |data| < RESPONSE_CAPACITY
    ensures Accounted(Main(w, data, room, starved))
  {
    if w.pc != Copied { SameAccount(w, Main(w, data, room, starved)); }
  }

  lemma StepKeepsAccount(w: World, e: Event)
    requires Accounted(w) && InStep(w) && Sized(w.t) && SizedPc(w.pc)
    ensures Accounted(Step(w, e))
  {
    if Enabled(w, e) {
      match e
      case RxDoneIrq =>
      case TxEmptyIrq(room) =>
      case RdReqIrq(room) =>
      case RxFullIrq(group, fillers) => RxKeepsAccount(w, group, fillers);
      case MainStep(data, room, starved) => MainKeepsAccount(w, data, room, starved);
    }
  }

  /** A command that is still to be delivered is a valid frame, and so has an answer. */
  lemma UndeliveredIsValid(w: World)
    requires Accounted(w) && Undelivered(w)
    ensures P.ValidFrame(w.t.command) && Answerable(w.t.command)
  {
    assert w.received[|w.delivered|] == w.t.command;
  }

  // ---- The answers ----

  lemma PostAnswers(w: World, size: nat)
    requires Answered(w) && w.pc == Finishing(size) && InStep(w) && Sized(w.t) && SizedPc(w.pc)
    ensures Answered(Post(w, size))
  {
    ChecksumInFront(w.t, size);
  }

  lemma ClaimAnswers(w: World)
    requires Answered(w) && w.pc == Copied
    ensures Answered(Claim(w))
  {}

  predicate Unanswered(pc: Pc) {
    pc.Working? || pc.Finishing? || pc.Rebooted?
  }

  /** A step that neither claims a command nor posts a response keeps the answers. */
  lemma SameAnswers(w: World, v: World)
    requires Answered(w) && v.delivered == w.delivered && v.replies == w.replies && v.posted == w.posted
    requires Unanswered(v.pc) == Unanswered(w.pc)
    requires Busy(v.pc) ==> Busy(w.pc) && v.copy == w.copy
    requires v.pc.Rebooted? ==> Resets(v.copy)
    ensures Answered(v)
  {}

  lemma FillingAnswers(w: World, room: nat)
    requires Answered(w) && Sized(w.t) && w.pc == Filling
    ensures Answered(Update(w, Fill(w.t, room)).(pc := Polling))
  {
    SameAnswers(w, Update(w, Fill(w.t, room)).(pc := Polling));
  }

  lemma WorkAnswers(w: World, data: seq<bv8>)
    requires Answered(w) && Sized(w.t) && w.pc == Working && |data| < RESPONSE_CAPACITY
    ensures Answered(Work(w, data))
  {
    SameAnswers(w, Work(w, data));
  }

  lemma CommitAnswers(w: World, size: nat)
    requires Answered(w) && w.pc == Posted(size)
    ensures Answered(Commit(w, size))
  {
    SameAnswers(w, Commit(w, size));
  }

  lemma MainKeepsAnswers(w: World, data: seq<bv8>, room: nat, starved: bool)
    requires Answered(w) && InStep(w) && Sized(w.t) && SizedPc(w.pc) && |data| < RESPONSE_CAPACITY
    ensures Answered(Main(w, data, room, starved))
  {
    match w.pc
    case Polling => SameAnswers(w, Poll(w));
    case Copied => ClaimAnswers(w);
    case Working => WorkAnswers(w, data);
    case Finishing(size) => PostAnswers(w, size);
    case Posted(size) => CommitAnswers(w, size);
    case Filling => FillingAnswers(w, room);
    case _ =>
  }

  lemma StepKeepsAnswers(w: World, e: Event)
    requires Answered(w) && InStep(w) && Sized(w.t) && SizedPc(w.pc)
    ensures Answered(Step(w, e))
  {
    if Enabled(w, e) && e.MainStep? {
      MainKeepsAnswers(w, e.data, e.room, e.starved);
    } else {
      SameAnswers(w, Step(w, e));
    }
  }

  // ---- Runs ----

  lemma StepKeeps(w: World, e: Event)
    requires Inv(w)
    ensures Inv(Step(w, e))
  {
    if Undelivered(w) { UndeliveredIsValid(w); }
    StepKeepsOrder(w, e);
    StepKeepsHandshake(w, e);
    StepKeepsAccount(w, e);
    StepKeepsAnswers(w, e);
  }

  /** What a step needs in order to be defined. */
  predicate Ready(w: World) {
    Sized(w.t) && SizedPc(w.pc)
  }

  lemma StepReady(w: World, e: Event)
    requires Ready(w)
    ensures Ready(Step(w, e))
  {}

  function Run(w: World, es: seq<Event>): (r: World)
    requires Ready(w)
    ensures Ready(r)
  {
    if es == [] then w
    else
      var v := Run(w, es[..|es| - 1]);
      StepReady(v, es[|es| - 1]);
      Step(v, es[|es| - 1])
  }

  lemma {:induction false} RunInv(w: World, es: seq<Event>)
    requires Inv(w)
    ensures Inv(Run(w, es))
  {
    if es != [] {
      RunInv(w, es[..|es| - 1]);
      StepKeeps(Run(w, es[..|es| - 1]), es[|es| - 1]);
    }
  }

  lemma RunHandshake(w: World, es: seq<Event>)
    requires Inv(w)
    ensures Handshake(Run(w, es))
  {
    RunInv(w, es);
  }

  lemma StartKeeps(memory: seq<bv8>)
    requires |memory| == RESPONSE_CAPACITY
    ensures Inv(Start(memory))
  {}

  /**
   * Whatever the order of interrupts and main-loop steps: each received command is a valid
   * frame and was delivered, once and in the order of reception, or is the one still to be
   * delivered; each delivered one was answered, once and in order, but for the one being worked
   * on; the queue holds a prefix of the posted response; no panic of the driver is reached, and
   * no read is rejected.
   */
  lemma RunKeeps(memory: seq<bv8>, es: seq<Event>)
    requires |memory| == RESPONSE_CAPACITY
    ensures Inv(Run(Start(memory), es))
    ensures var w := Run(Start(memory), es);
      && w.received == w.delivered + (if Undelivered(w) then [w.t.command] else [])
      && (forall i :: 0 <= i < |w.replies| ==> i < |w.delivered| && Answers(w.replies[i], w.delivered[i]))
      && Bytes(w.t.written[w.mark..]) == w.posted[..w.t.bytesSent]
      && w.pc != Rejecting
  {
    StartKeeps(memory);
    RunInv(Start(memory), es);
  }

  /** The response buffer keeps its contents from the posting on until the response is over. */
  lemma BufferQuiet(w: World, e: Event)
    requires Inv(w) && Exposed(w)
    ensures Step(w, e).t.memory == w.t.memory
  {}

  // ---- Held reads ----

  /** How many steps of the main loop a held read still waits for. */
  function StepsLeft(w: World): nat {
    match w.pc
    case Polling => 7
    case Copying => 6
    case Copied => 5
    case Working => 4
    case Finishing(_) => 3
    case Posted(_) => 2
    case Filling => if w.t.phase == WaitingForResponse then 8 else 1
    case _ => 0
  }

  predicate IsMain(w: World, e: Event) {
    e.MainStep? && Enabled(w, e)
  }

  lemma HeldMain(w: World, data: seq<bv8>, room: nat, starved: bool)
    requires Handshake(w) && w.pc != Rebooted && w.held && |data| < RESPONSE_CAPACITY && room > 0
    requires Main(w, data, room, starved).held
    ensures StepsLeft(Main(w, data, room, starved)) + 1 <= StepsLeft(w)
  {
    if w.pc == Filling { FillWrites(w.t, room); }
  }

  lemma HeldStep(w: World, e: Event)
    requires Handshake(w) && w.held && Step(w, e).held
    ensures StepsLeft(Step(w, e)) + (if IsMain(w, e) then 1 else 0) <= StepsLeft(w)
  {
    if Enabled(w, e) {
      match e
      case TxEmptyIrq(room) => FillWrites(w.t, room);
      case RxFullIrq(group, fillers) => RxPhases(w.t, group, fillers);
      case MainStep(data, room, starved) => HeldMain(w, data, room, starved);
      case _ =>
    }
  }

  predicate HeldThroughout(w: World, es: seq<Event>)
    requires Ready(w)
  {
    forall n :: 0 <= n <= |es| ==> Run(w, es[..n]).held
  }

  function MainSteps(w: World, es: seq<Event>): nat
    requires Ready(w)
  {
    if es == [] then 0
    else MainSteps(w, es[..|es| - 1]) + if IsMain(Run(w, es[..|es| - 1]), es[|es| - 1]) then 1 else 0
  }

  lemma HeldLast(w: World, es: seq<Event>, e: Event)
    requires Inv(w) && Run(w, es).held && Run(w, es + [e]).held
    ensures MainSteps(w, es + [e]) + StepsLeft(Run(w, es + [e])) <= MainSteps(w, es) + StepsLeft(Run(w, es))
  {
    assert (es + [e])[..|es|] == es;
    RunHandshake(w, es);
    HeldStep(Run(w, es), e);
  }

  lemma HeldPrefix(w: World, es: seq<Event>, e: Event)
    requires Ready(w) && HeldThroughout(w, es + [e])
    ensures HeldThroughout(w, es) && Run(w, es).held && Run(w, es + [e]).held
  {
    var all := es + [e];
    assert forall n :: 0 <= n <= |es| ==> all[..n] == es[..n];
    assert es[..|es|] == es && all[..|all|] == all;
  }

  /** No read is forgotten: it is held for at most eight steps of the main loop, whatever interrupts come between. */
  lemma {:induction false} HeldReadAnswered(w: World, es: seq<Event>)
    requires Inv(w) && HeldThroughout(w, es)
    ensures MainSteps(w, es) + StepsLeft(Run(w, es)) <= StepsLeft(w)
    ensures MainSteps(w, es) <= 8
  {
    if es != [] {
      var init, e := es[..|es| - 1], es[|es| - 1];
      assert es == init + [e];
      HeldPrefix(w, init, e);
      HeldReadAnswered(w, init);
      HeldLast(w, init, e);
    }
  }

  // ---- Responses sent cleanly ----

  /** The first n bytes of the response, and fillers only once all of it has been queued. */
  predicate Clean(log: seq<Out>, response: seq<bv8>, n: nat) {
    && n <= |response| && n <= |log| && log[..n] == AsData(response[..n])
    && (forall i :: n <= i < |log| ==> log[i] == Filler)
    && (n < |log| ==> n == |response|)
  }

  /** A waiting read is still held, and a response that has been posted is being sent cleanly. */
  predicate Smooth(w: World) {
    && w.mark <= |w.t.written|
    && (w.t.txEmptyMask ==> w.t.phase == Responding)
    && (w.t.phase == WaitingForResponse || w.pc == Filling ==> w.held)
    && (w.pc == Filling ==> w.t.phase == Responding && !w.t.txEmptyMask)
    && (w.t.phase == Responding ==> Clean(w.t.written[w.mark..], w.posted, w.t.bytesSent))
    && (w.pc.Posted? ==> w.mark == |w.t.written|)
  }

  /** Data on the bus makes the restart routine write into a response that is due or under way. */
  predicate Spoils(w: World, e: Event) {
    && Enabled(w, e) && e.RxFullIrq? && e.fillers > 0
    && (|| w.t.phase == WaitingForResponse
        || w.pc.Posted?
        || (w.t.phase == Responding && w.t.bytesSent < |w.posted|))
  }

  lemma CleanGrows(log: seq<Out>, response: seq<bv8>, sent: nat, n: nat, memory: seq<bv8>)
    requires Clean(log, response, sent) && sent + n <= |response| <= |memory| && response == memory[..|response|]
    ensures Clean(log + AsData(memory[sent..sent + n]), response, sent + n)
  {
    assert memory[sent..sent + n] == response[sent..sent + n];
    if n > 0 {
      assert AsData(response[..sent + n]) == AsData(response[..sent]) + AsData(response[sent..sent + n]);
    }
  }

  lemma FillClean(w: World, room: nat)
    requires Sized(w.t) && w.mark <= |w.t.written| && w.t.responseSize == |w.posted|
    requires w.posted == w.t.memory[..|w.posted|]
    requires Clean(w.t.written[w.mark..], w.posted, w.t.bytesSent)
    ensures Clean(Fill(w.t, room).written[w.mark..], w.posted, Fill(w.t, room).bytesSent)
  {
    var sent, n := w.t.bytesSent, Min(room, w.t.responseSize - w.t.bytesSent);
    SinceMark(w.t.written, w.mark, AsData(w.t.memory[sent..sent + n]));
    CleanGrows(w.t.written[w.mark..], w.posted, sent, n, w.t.memory);
  }

  lemma FillersClean(log: seq<Out>, response: seq<bv8>, n: nat, more: nat)
    requires Clean(log, response, n) && more > 0
    ensures Clean(log + Fillers(more), response, n) <==> n == |response|
  {
    if n == |response| { assert (log + Fillers(more))[..n] == log[..n]; }
  }

  lemma MainSmooth(w: World, data: seq<bv8>, room: nat, starved: bool)
    requires Inv(w) && Smooth(w) && |data| < RESPONSE_CAPACITY && (w.held ==> room > 0)
    ensures Smooth(Main(w, data, room, starved))
  {
    match w.pc
    case Filling => FillClean(w, room);
    case _ =>
  }

  lemma RdReqSmooth(w: World, room: nat)
    requires Inv(w) && Smooth(w) && !w.held && room > 0
    ensures Smooth(OnRdReq(w, room))
  {
    if w.t.phase == Responding && w.t.bytesSent < w.t.responseSize {
      FillClean(w, room);
    } else if w.t.phase == Responding {
      assert Fillers(1) == [Filler];
      SinceMark(w.t.written, w.mark, Fillers(1));
      FillersClean(w.t.written[w.mark..], w.posted, w.t.bytesSent, 1);
    }
  }

  lemma TxEmptySmooth(w: World, room: nat)
    requires Inv(w) && Smooth(w)
    ensures Smooth(Update(w, TxEmpty(w.t, room)))
  {
    if w.t.phase == Responding { FillClean(w, room); }
  }

  lemma RxFullSmooth(w: World, group: seq<P.RxWord>, fillers: nat)
    requires Inv(w) && Smooth(w) && Enabled(w, RxFullIrq(group, fillers))
    ensures Smooth(OnRxFull(w, group, fillers)) <==> !Spoils(w, RxFullIrq(group, fillers))
  {
    RxPhases(w.t, group, fillers);
    SinceMark(w.t.written, w.mark, Fillers(fillers));
    if w.t.phase == Responding && fillers > 0 {
      FillersClean(w.t.written[w.mark..], w.posted, w.t.bytesSent, fillers);
    }
    if fillers == 0 { assert w.t.written + Fillers(0) == w.t.written; }
  }

  /** The one way in which a step stops responses from being sent cleanly. */
  lemma StepSmooth(w: World, e: Event)
    requires Inv(w) && Smooth(w)
    ensures Smooth(Step(w, e)) <==> !Spoils(w, e)
  {
    if Enabled(w, e) {
      match e
      case RxDoneIrq =>
      case TxEmptyIrq(room) => TxEmptySmooth(w, room);
      case RdReqIrq(room) => RdReqSmooth(w, room);
      case RxFullIrq(group, fillers) => RxFullSmooth(w, group, fillers);
      case MainStep(data, room, starved) => MainSmooth(w, data, room, starved);
    }
  }

  predicate SmoothThroughout(w: World, es: seq<Event>)
    requires Ready(w)
  {
    forall n :: 0 <= n <= |es| ==> Smooth(Run(w, es[..n]))
  }

  predicate NeverSpoiled(w: World, es: seq<Event>)
    requires Ready(w)
  {
    forall n :: 0 <= n < |es| ==> !Spoils(Run(w, es[..n]), es[n])
  }

  lemma RunOne(w: World, es: seq<Event>, e: Event)
    requires Ready(w)
    ensures Run(w, es + [e]) == Step(Run(w, es), e)
  {
    assert (es + [e])[..|es|] == es;
  }

  lemma Prefixes(w: World, es: seq<Event>, e: Event)
    requires Ready(w)
    ensures SmoothThroughout(w, es + [e]) <==> SmoothThroughout(w, es) && Smooth(Run(w, es + [e]))
    ensures NeverSpoiled(w, es + [e]) <==> NeverSpoiled(w, es) && !Spoils(Run(w, es), e)
    ensures SmoothThroughout(w, es) ==> Smooth(Run(w, es))
  {
    var all := es + [e];
    assert forall n :: 0 <= n <= |es| ==> all[..n] == es[..n];
    assert es[..|es|] == es && all[..|all|] == all;
    assert forall n :: 0 <= n <= |es| ==> Run(w, all[..n]) == Run(w, es[..n]);
  }

  lemma LastSmooth(w: World, es: seq<Event>, e: Event)
    requires Inv(w) && Smooth(Run(w, es))
    ensures Smooth(Run(w, es + [e])) <==> !Spoils(Run(w, es), e)
  {
    RunInv(w, es);
    RunOne(w, es, e);
    StepSmooth(Run(w, es), e);
  }

  /** Throughout a run responses are sent cleanly if and only if no data spoils one. */
  lemma {:induction false} SmoothUnlessSpoiled(w: World, es: seq<Event>)
    requires Inv(w) && Smooth(w)
    ensures SmoothThroughout(w, es) <==> NeverSpoiled(w, es)
  {
    if es == [] {
      assert es[..0] == [];
    } else {
      var init, e := es[..|es| - 1], es[|es| - 1];
      assert es == init + [e];
      SmoothUnlessSpoiled(w, init);
      Prefixes(w, init, e);
      if Smooth(Run(w, init)) { LastSmooth(w, init, e); }
    }
  }

  lemma RunMoreStep(w: World, es: seq<Event>, init: seq<Event>, e: Event)
    requires Ready(w) && Run(w, es + init) == Run(Run(w, es), init)
    ensures Run(w, es + (init + [e])) == Run(Run(w, es), init + [e])
  {
    assert es + (init + [e]) == (es + init) + [e];
    RunOne(w, es + init, e);
    RunOne(Run(w, es), init, e);
  }

  /** From the start, whatever the run. */
  lemma CleanUnlessSpoiled(memory: seq<bv8>, es: seq<Event>)
    requires |memory| == RESPONSE_CAPACITY
    ensures SmoothThroughout(Start(memory), es) <==> NeverSpoiled(Start(memory), es)
  {
    StartKeeps(memory);
    SmoothUnlessSpoiled(Start(memory), es);
  }

  lemma {:induction false} RunMore(w: World, es: seq<Event>, more: seq<Event>)
    requires Ready(w)
    ensures Run(w, es + more) == Run(Run(w, es), more)
  {
    if more == [] {
      assert es + more == es;
    } else {
      var init, e := more[..|more| - 1], more[|more| - 1];
      RunMore(w, es, init);
      RunMoreStep(w, es, init, e);
      assert more == init + [e];
    }
  }

  // ---- A response that is not sent cleanly ----

  lemma RunSingle(w: World, e: Event)
    requires Ready(w)
    ensures Run(w, [e]) == Step(w, e)
  {
    RunOne(w, [], e);
    assert [] + [e] == [e];
  }

  lemma FrameComesIn(w: World, frame: seq<bv8>) returns (es: seq<Event>)
    requires Ready(w) && w.t.phase == Idle && !w.held && w.pc == Polling && P.ValidFrame(frame)
    ensures var v := Run(w, es);
      v.t.phase == CmdReceived && v.t.command == frame && !v.held && v.pc == Polling
  {
    var e := RxFullIrq(P.AsWords(frame), 0);
    RunSingle(w, e);
    P.FrameTaken(AsParser(w.t), frame, 0, P.AsWords(frame));
    assert Fillers(0) == [];
    es := [e];
  }

  lemma CommandClaimed(w: World) returns (es: seq<Event>)
    requires Ready(w) && w.t.phase == CmdReceived && !w.held && w.pc == Polling
    ensures var v := Run(w, es);
      v.t.phase == CmdProcessing && v.copy == w.t.command && !v.held && v.pc == Working
  {
    var m := MainStep([], 0, false);
    RunSingle(w, m);
    RunOne(w, [m], m);
    RunOne(w, [m] + [m], m);
    es := [m] + [m] + [m];
  }

  lemma AnswerPosted(w: World, data: seq<bv8>) returns (es: seq<Event>)
    requires Ready(w) && w.t.phase == CmdProcessing && !w.held && w.pc == Working
    requires 0 < |data| == ReplyLength(w.copy)
    ensures var v := Run(w, es);
      && v.t.phase == CmdProcessing && !v.held && v.pc == Posted(|data| + 1) && v.mark == |v.t.written|
      && |v.posted| == |data| + 1
  {
    var m := MainStep(data, 0, false);
    RunSingle(w, m);
    RunOne(w, [m], m);
    es := [m] + [m];
  }

  lemma ReadAnsweredByRestart(w: World, group: seq<P.RxWord>) returns (es: seq<Event>)
    requires Ready(w) && w.t.phase == CmdProcessing && !w.held && w.pc.Posted?
    ensures Run(w, es) == w.(t := w.t.(phase := WaitingForResponse, written := w.t.written + [Filler]))
  {
    RunSingle(w, RdReqIrq(1));
    RunOne(w, [RdReqIrq(1)], RxFullIrq(group, 1));
    assert Fillers(1) == [Filler];
    es := [RdReqIrq(1)] + [RxFullIrq(group, 1)];
  }

  lemma CommittedAndFilled(w: World) returns (es: seq<Event>)
    requires Ready(w) && w.t.phase == WaitingForResponse && !w.held && w.pc == Posted(w.t.responseSize)
    requires w.t.bytesSent == 0 < w.t.responseSize
    ensures var v := Run(w, es);
      && v.t.phase == Responding && v.posted == w.posted && v.mark == w.mark
      && v.t.written == w.t.written + AsData(w.t.memory[..w.t.responseSize])
  {
    var m := MainStep([], RESPONSE_CAPACITY, true);
    RunSingle(w, m);
    RunOne(w, [m], m);
    es := [m] + [m];
  }

  /** A posted response, its read answered by the restart. */
  lemma ReadSpoiled(w: World, group: seq<P.RxWord>) returns (es: seq<Event>)
    requires Handshake(w) && InOrder(w) && w.t.phase == CmdProcessing && !w.held && w.pc.Posted? && w.mark == |w.t.written|
    ensures var v := Run(w, es);
      && v.t.phase == Responding && v.posted == w.posted && v.mark == w.mark
      && v.t.written == w.t.written + [Filler] + AsData(w.posted)
  {
    var first := ReadAnsweredByRestart(w, group);
    var second := CommittedAndFilled(Run(w, first));
    RunMore(w, first, second);
    es := first + second;
  }

  lemma StatusPosted(memory: seq<bv8>, status: seq<bv8>) returns (es: seq<Event>)
    requires |memory| == RESPONSE_CAPACITY && |status| == STATUS_LENGTH
    ensures var v := Run(Start(memory), es);
      && v.t.phase == CmdProcessing && !v.held && v.pc.Posted? && v.mark == |v.t.written|
      && |v.posted| == RESPONSE_CAPACITY
  {
    var frame, start := P.BuildFrame(0, []), Start(memory);
    var first := FrameComesIn(start, frame);
    var second := CommandClaimed(Run(start, first));
    RunMore(start, first, second);
    var third := AnswerPosted(Run(start, first + second), status);
    RunMore(start, first + second, third);
    es := first + second + third;
  }

  lemma BehindTheMark(log: seq<Out>, more: seq<Out>, data: seq<Out>)
    ensures (log + more + data)[|log|..] == more + data
  {}

  /**
   * It does happen: data that arrives behind a held read makes the restart answer the read,
   * and the response follows one byte late.
   */
  lemma SpoiledRun(memory: seq<bv8>, status: seq<bv8>, group: seq<P.RxWord>) returns (es: seq<Event>)
    requires |memory| == RESPONSE_CAPACITY && |status| == STATUS_LENGTH
    ensures var w := Run(Start(memory), es);
      && w.t.phase == Responding && |w.posted| == RESPONSE_CAPACITY
      && w.mark <= |w.t.written| && w.t.written[w.mark..] == [Filler] + AsData(w.posted)
  {
    var first := StatusPosted(memory, status);
    StartKeeps(memory);
    RunInv(Start(memory), first);
    var w := Run(Start(memory), first);
    var second := ReadSpoiled(w, group);
    RunMore(Start(memory), first, second);
    BehindTheMark(w.t.written, [Filler], AsData(w.posted));
    es := first + second;
  }

  // ---- From the sender to the dispatch ----

  /** The words that interrupts have taken from the bus. */
  function Sent(w: World, es: seq<Event>): seq<P.RxWord>
    requires Ready(w)
  {
    if es == [] then []
    else
      var init, e := es[..|es| - 1], es[|es| - 1];
      Sent(w, init) + if e.RxFullIrq? && Enabled(Run(w, init), e) then e.group else []
  }

  predicate Open(t: Target) {
    t.phase == Idle || t.phase == Receiving
  }

  /** While the parser is open, only data on the bus touches it. */
  lemma OpenStep(v: World, e: Event)
    requires Handshake(v) && Open(v.t) && !e.RxFullIrq?
    ensures Open(Step(v, e).t) && AsParser(Step(v, e).t) == AsParser(v.t) && Step(v, e).received == v.received
  {}

  /** Nothing is received without data. */
  lemma ClosedStep(v: World, e: Event)
    requires Ready(v) && v.t.phase != Receiving && (e.RxFullIrq? && Enabled(v, e) ==> e.group == [])
    ensures Step(v, e).t.phase != Receiving && Step(v, e).received == v.received
  {}

  lemma GroupReceived(v: World, frame: seq<bv8>, k: nat, group: seq<P.RxWord>, fillers: nat)
    requires Open(v.t) && P.ValidFrame(frame) && k < |frame|
    requires P.HasTaken(AsParser(v.t), frame, k) && P.Follows(group, frame, k)
    ensures var u := OnRxFull(v, group, fillers);
      if k + |group| < |frame| then
        Open(u.t) && P.HasTaken(AsParser(u.t), frame, k + |group|) && u.received == v.received
      else u.t.phase != Receiving && u.received == v.received + [frame]
  {
    P.FrameTaken(AsParser(v.t), frame, k, group);
  }

  /** How far a frame has come whose words are being sent, k of them so far. */
  ghost predicate Coming(w: World, v: World, frame: seq<bv8>, k: nat) {
    if k < |frame| then Open(v.t) && P.HasTaken(AsParser(v.t), frame, k) && v.received == w.received
    else v.t.phase != Receiving && v.received == w.received + [frame]
  }

  lemma ComingStep(w: World, v: World, e: Event, frame: seq<bv8>, before: seq<P.RxWord>)
    requires Handshake(v) && P.ValidFrame(frame) && Coming(w, v, frame, |before|)
    requires before + (if e.RxFullIrq? && Enabled(v, e) then e.group else []) <= P.AsWords(frame)
    ensures Coming(w, Step(v, e), frame, |before + (if e.RxFullIrq? && Enabled(v, e) then e.group else [])|)
  {
    if |before| == |frame| {
      ClosedStep(v, e);
    } else if e.RxFullIrq? && Enabled(v, e) {
      P.LastGroup(frame, before, e.group);
      GroupReceived(v, frame, |before|, e.group, e.fillers);
    } else if !e.RxFullIrq? {
      OpenStep(v, e);
    }
  }

  lemma {:induction false} FrameComing(w: World, frame: seq<bv8>, es: seq<Event>)
    requires Inv(w) && w.t.phase == Idle && P.ValidFrame(frame) && Sent(w, es) <= P.AsWords(frame)
    ensures Coming(w, Run(w, es), frame, |Sent(w, es)|)
  {
    if es != [] {
      var n := |es| - 1;
      assert Sent(w, es[..n]) <= Sent(w, es);
      FrameComing(w, frame, es[..n]);
      RunHandshake(w, es[..n]);
      ComingStep(w, Run(w, es[..n]), es[n], frame, Sent(w, es[..n]));
    }
  }

  /** How many steps of the main loop a command in the receive buffer still waits for. */
  function TakeLeft(pc: Pc): nat {
    match pc
    case Filling => 4
    case Polling => 3
    case Copying => 2
    case Copied => 1
    case _ => 0
  }

  /** The command is still waiting, or it is the next one delivered. */
  predicate Pending(w: World, v: World, steps: nat) {
    if |v.delivered| > |w.delivered| then v.delivered[|w.delivered|] == w.t.command
    else
      && Undelivered(v) && v.delivered == w.delivered && v.t.command == w.t.command
      && steps + TakeLeft(v.pc) <= 4 && TakeLeft(v.pc) > 0
  }

  lemma PendingMain(w: World, v: World, data: seq<bv8>, room: nat, starved: bool, steps: nat)
    requires Handshake(v) && Pending(w, v, steps) && |data| < RESPONSE_CAPACITY && v.pc != Rebooted
    ensures Pending(w, Main(v, data, room, starved), steps + 1)
  {}

  lemma PendingStep(w: World, v: World, e: Event, steps: nat)
    requires Handshake(v) && Pending(w, v, steps)
    ensures Pending(w, Step(v, e), steps + if IsMain(v, e) then 1 else 0)
  {
    if Enabled(v, e) {
      match e
      case RxFullIrq(group, fillers) => RxPhases(v.t, group, fillers);
      case MainStep(data, room, starved) => PendingMain(w, v, data, room, starved, steps);
      case _ =>
    }
  }

  lemma {:induction false} PendingRun(w: World, es: seq<Event>)
    requires Inv(w) && Undelivered(w)
    ensures Pending(w, Run(w, es), MainSteps(w, es))
  {
    if es != [] {
      PendingRun(w, es[..|es| - 1]);
      RunHandshake(w, es[..|es| - 1]);
      PendingStep(w, Run(w, es[..|es| - 1]), es[|es| - 1], MainSteps(w, es[..|es| - 1]));
    }
  }

  lemma DeliveredStep(v: World, e: Event)
    requires Ready(v)
    ensures v.delivered <= Step(v, e).delivered
  {}

  lemma {:induction false} DeliveredStays(w: World, es: seq<Event>)
    requires Ready(w)
    ensures w.delivered <= Run(w, es).delivered
  {
    if es != [] {
      DeliveredStays(w, es[..|es| - 1]);
      DeliveredStep(Run(w, es[..|es| - 1]), es[|es| - 1]);
    }
  }

  /** All that has been received is delivered after at most four more steps of the main loop, whatever comes between. */
  lemma ReceivedIsDelivered(w: World, es: seq<Event>)
    requires Inv(w) && MainSteps(w, es) >= 4
    ensures w.received <= Run(w, es).delivered
  {
    DeliveredStays(w, es);
    if Undelivered(w) {
      PendingRun(w, es);
      PrefixGrows(w.delivered, w.t.command, Run(w, es).delivered);
    }
    NotYetDelivered(w);
  }

  lemma PrefixGrows(a: seq<seq<bv8>>, x: seq<bv8>, b: seq<seq<bv8>>)
    requires a <= b && |a| < |b| && b[|a|] == x
    ensures a + [x] <= b
  {}

  lemma NotYetDelivered(w: World)
    requires Inv(w)
    ensures w.received == w.delivered + if Undelivered(w) then [w.t.command] else []
  {}

  /**
   * A frame sent to an idle board is received, whatever other interrupts and main-loop steps
   * come between its bytes and however the bytes are grouped; and it is the next command
   * delivered, unchanged, after at most four more steps of the main loop.
   */
  lemma CommandDelivered(w: World, frame: seq<bv8>, es: seq<Event>, more: seq<Event>)
    requires Inv(w) && w.t.phase == Idle && P.ValidFrame(frame) && Sent(w, es) == P.AsWords(frame)
    ensures Run(w, es).received == w.delivered + [frame]
    ensures MainSteps(Run(w, es), more) >= 4 ==>
      w.delivered + [frame] <= Run(Run(w, es), more).delivered
  {
    FrameComing(w, frame, es);
    RunInv(w, es);
    if MainSteps(Run(w, es), more) >= 4 { ReceivedIsDelivered(Run(w, es), more); }
  }
}
