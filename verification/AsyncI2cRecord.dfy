/**
 * What the transfers of the coprocessor's I2C driver receive and write, told from the interrupts
 * alone: the bytes the controller hands over, in order, and the room it offers.
 */
module AsyncI2cRecord {
  import opened AsyncI2cSpec

  function Min(a: nat, b: nat): nat {
    if a < b then a else b
  }

  /** The bytes that an interrupt takes out of the receive FIFO. */
  function Got(i: Irq): seq<bv8> {
    First(i) + if i.stop then i.stopBytes else []
  }

  /** Those of them that it takes before it looks for a stop. */
  function First(i: Irq): seq<bv8> {
    if i.rxFull && !i.abort then i.rxBytes else []
  }

  predicate Starts(d: Driver, e: Event) {
    |Step(d, e).started| > |d.started|
  }

  predicate Ends(d: Driver, e: Event) {
    |Step(d, e).ended| > |d.ended|
  }

  /** What has been handed over since the last transfer was started. */
  function Delivered(es: seq<Event>): seq<bv8> {
    if es == [] then []
    else
      var d, e := Run(es[..|es| - 1]), es[|es| - 1];
      if Starts(d, e) then [] else Delivered(es[..|es| - 1]) + if e.Interrupt? then Got(e.irq) else []
  }

  /** For each end, what had been handed over by then; an abort comes before the bytes of its interrupt. */
  function EndsDelivered(es: seq<Event>): seq<seq<bv8>> {
    if es == [] then []
    else
      var d, e, before := Run(es[..|es| - 1]), es[|es| - 1], Delivered(es[..|es| - 1]);
      EndsDelivered(es[..|es| - 1])
      + if Ends(d, e) && e.Interrupt? then [if e.irq.abort then before else before + Got(e.irq)] else []
  }

  lemma {:induction false} FillTxCount(t: Transfer, room: nat)
    requires t.sent <= |t.job.request.tx|
    ensures FillTx(t, room).sent == Min(|t.job.request.tx|, t.sent + room)
    decreases room
  {
    var tx := t.job.request.tx;
    if room > 0 && t.sent < |tx| {
      FillTxCount(t.(sent := t.sent + 1, words := t.words + [Send(tx[t.sent], t.sent + 1 == |tx|)]), room - 1);
    }
  }

  lemma {:induction false} FillReadsCount(t: Transfer, room: nat)
    requires t.asked <= t.job.request.toReceive
    ensures FillReads(t, room).asked == Min(t.job.request.toReceive, t.asked + room)
    decreases room
  {
    var n := t.job.request.toReceive;
    if room > 0 && t.asked < n {
      FillReadsCount(t.(asked := t.asked + 1, words := t.words + [Read(t.asked + 1 == n)]), room - 1);
    }
  }

  /** What an interrupt without abort has sent, asked for and received before a stop is looked at. */
  predicate FilledBy(t: Transfer, i: Irq, u: Transfer) {
    var r := t.job.request;
    && u.job == t.job
    && u.sent == (if i.txEmpty then Min(|r.tx|, t.sent + i.txRoom) else t.sent)
    && u.asked == (if i.rxFull then Min(r.toReceive, t.asked + i.readRoom) else t.asked)
    && u.rx == t.rx + if i.rxFull then i.rxBytes else []
  }

  lemma FillsExactly(d: Driver, i: Irq)
    requires RecordOk(d.current) && PlausibleIrq(d, i) && !i.abort
    ensures FilledBy(d.current, i, OnRxFull(OnTxEmpty(d, i), i).current)
  {
    if i.txEmpty {
      FillTxRecord(d.current, i.txRoom);
      FillTxCount(d.current, i.txRoom);
    }
    var t := OnTxEmpty(d, i).current;
    if i.rxFull {
      FillReadsRecord(t.(rx := t.rx + i.rxBytes), i.readRoom);
      FillReadsCount(t.(rx := t.rx + i.rxBytes), i.readRoom);
    }
  }

  // ---- Received ----

  /** Whether the step has ended a transfer, and with what received. */
  predicate EndsWith(before: seq<End>, after: seq<End>, rx: seq<bv8>) {
    after == before || (|after| == |before| + 1 && after[..|before|] == before && after[|before|].transfer.rx == rx)
  }

  lemma AbortReceives(d: Driver, i: Irq)
    requires i.abort
    ensures var d' := BeforeNext(d, i);
      d'.current.rx == d.current.rx + Got(i) && d'.started == d.started && EndsWith(d.ended, d'.ended, d.current.rx)
  {
    AcceptAllCurrent(Ended(d, false), i.callback);
    assert d.current.rx + [] == d.current.rx;
  }

  lemma StopReceives(d: Driver, i: Irq)
    requires RecordOk(d.current) && !i.abort && i.stop
    requires |i.stopBytes| <= d.current.asked - |d.current.rx|
    ensures var d' := OnStop(d, i);
      && d'.current.rx == d.current.rx + i.stopBytes && d'.started == d.started
      && EndsWith(d.ended, d'.ended, d.current.rx + i.stopBytes)
  {
    var t := d.current.(rx := d.current.rx + i.stopBytes);
    FillReadsRecord(t, i.stageRoom);
    AcceptAllCurrent(Ended(d.(current := t), true), i.callback);
  }

  lemma InterruptReceives(d: Driver, i: Irq)
    requires RecordOk(d.current) && PlausibleIrq(d, i)
    ensures var d' := BeforeNext(d, i);
      && d'.current.rx == d.current.rx + Got(i) && d'.started == d.started
      && EndsWith(d.ended, d'.ended, if i.abort then d.current.rx else d.current.rx + Got(i))
  {
    if i.abort {
      AbortReceives(d, i);
    } else {
      FillsKeepRecord(d, i);
      FillsExactly(d, i);
      var d1 := OnRxFull(OnTxEmpty(d, i), i);
      var first := if i.rxFull then i.rxBytes else [];
      assert d.current.rx + first + i.stopBytes == d.current.rx + (first + i.stopBytes);
      assert d.current.rx + first + [] == d.current.rx + (first + []);
      if i.stop { StopReceives(d1, i); }
    }
  }

  lemma StartReceives(d: Driver, job: Job, room: nat)
    ensures Start(d, job, room).current.rx == [] && Start(d, job, room).started == d.started + [job]
    ensures Start(d, job, room).ended == d.ended
  {
    FillTxRecord(Fresh(job), room);
    FillReadsRecord(Fresh(job), room);
  }

  lemma NextReceives(d: Driver, room: nat)
    ensures var d' := Next(d, room);
      d'.ended == d.ended && d'.current.rx == if |d'.started| > |d.started| then [] else d.current.rx
  {
    if d.stage == Done && d.queue != [] { StartReceives(d.(queue := d.queue[1..]), d.queue[0], room); }
  }

  lemma StepReceives(d: Driver, e: Event)
    requires Sane(d) && Allowed(d, e)
    ensures var got := if e.Interrupt? then Got(e.irq) else [];
      && Step(d, e).current.rx == (if Starts(d, e) then [] else d.current.rx + got)
      && EndsWith(d.ended, Step(d, e).ended, if e.Interrupt? && e.irq.abort then d.current.rx else d.current.rx + got)
    ensures Ends(d, e) ==> e.Interrupt?
  {
    match e
    case Enqueue(job) => assert d.current.rx + [] == d.current.rx;
    case StartReserved(room) => StartReceives(d, d.reserved, room);
    case Timeout => assert d.current.rx + [] == d.current.rx;
    case Interrupt(i) =>
      InterruptReceives(d, i);
      NextReceives(BeforeNext(d, i), i.nextRoom);
  }

  /** The ends so far, each with what it received. */
  predicate EndsReceived(ends: seq<End>, received: seq<seq<bv8>>) {
    |received| == |ends| && forall k :: 0 <= k < |ends| ==> ends[k].transfer.rx == received[k]
  }

  lemma EndsGrow(before: seq<End>, after: seq<End>, received: seq<seq<bv8>>, rx: seq<bv8>)
    requires EndsReceived(before, received) && EndsWith(before, after, rx)
    ensures EndsReceived(after, received + if |after| > |before| then [rx] else [])
  {
    forall k | 0 <= k < |before| ensures after[k] == before[k] { assert after[..|before|][k] == after[k]; }
  }

  /**
   * In every run, the transfer under way has received what the controller has handed over since
   * it was started, in that order and nothing else; and each transfer that ended had
   * received what had been handed over by then.
   */
  lemma {:induction false} ReceivedIsDelivered(es: seq<Event>)
    requires AllowedRun(es)
    ensures Run(es).current.rx == Delivered(es)
    ensures EndsReceived(Run(es).ended, EndsDelivered(es))
  {
    if es != [] {
      var init, e := es[..|es| - 1], es[|es| - 1];
      ReceivedIsDelivered(init);
      SurplusIsLateEnds(init);
      DeliveredGrows(Run(init), e, Delivered(init), EndsDelivered(init));
    }
  }

  lemma DeliveredGrows(d: Driver, e: Event, delivered: seq<bv8>, ends: seq<seq<bv8>>)
    requires Sane(d) && Allowed(d, e) && d.current.rx == delivered && EndsReceived(d.ended, ends)
    ensures var got := if e.Interrupt? then Got(e.irq) else [];
      && Step(d, e).current.rx == (if Starts(d, e) then [] else delivered + got)
      && EndsReceived(Step(d, e).ended,
                      ends + if Ends(d, e) && e.Interrupt? then [if e.irq.abort then delivered else delivered + got] else [])
  {
    StepReceives(d, e);
    var got := if e.Interrupt? then Got(e.irq) else [];
    EndsGrow(d.ended, Step(d, e).ended, ends, if e.Interrupt? && e.irq.abort then d.current.rx else d.current.rx + got);
  }

  // ---- The alarm ----

  /** The alarm from the start of a transfer on, until it ends or the alarm fires. */
  function Alarmed(es: seq<Event>): bool {
    if es == [] then false
    else
      var d, e := Run(es[..|es| - 1]), es[|es| - 1];
      if Starts(d, e) then true else Alarmed(es[..|es| - 1]) && !e.Timeout? && !Ends(d, e)
  }

  lemma InterruptAlarm(d: Driver, i: Irq)
    ensures var d' := BeforeNext(d, i);
      && d'.started == d.started && d'.alarm == (d.alarm && |d'.ended| == |d.ended|) && |d.ended| <= |d'.ended|
  {
    AcceptAllCurrent(Ended(d, false), i.callback);
    if !i.abort && i.stop {
      var d1 := OnRxFull(OnTxEmpty(d, i), i);
      AcceptAllCurrent(Ended(d1.(current := d1.current.(rx := d1.current.rx + i.stopBytes)), true), i.callback);
    }
  }

  lemma NextAlarm(d: Driver, room: nat)
    requires forall j :: j in d.queue ==> ValidRequest(j.request)
    ensures Next(d, room).alarm == (d.alarm || |Next(d, room).started| > |d.started|) && Next(d, room).ended == d.ended
  {
    if d.stage == Done && d.queue != [] { StartReceives(d.(queue := d.queue[1..]), d.queue[0], room); }
  }

  lemma StepAlarm(d: Driver, e: Event)
    requires Sane(d) && Allowed(d, e)
    ensures Step(d, e).alarm == if Starts(d, e) then true else d.alarm && !e.Timeout? && !Ends(d, e)
  {
    match e
    case Enqueue(job) =>
    case StartReserved(room) =>
    case Timeout =>
    case Interrupt(i) =>
      InterruptAlarm(d, i);
      if BeforeNext(d, i).stage == Done {
        ReadyForNext(d, i);
        NextAlarm(BeforeNext(d, i), i.nextRoom);
      }
  }

  /**
   * In every run the timeout alarm is scheduled from the start of each transfer until it ends or the
   * alarm fires, and at no other time.
   */
  lemma {:induction false} AlarmForEachTransfer(es: seq<Event>)
    requires AllowedRun(es)
    ensures Run(es).alarm == Alarmed(es)
  {
    if es != [] {
      var init := es[..|es| - 1];
      AlarmForEachTransfer(init);
      SurplusIsLateEnds(init);
      StepAlarm(Run(init), es[|es| - 1]);
    }
  }

  // ---- Written, and when a transfer ends ----

  /** What becomes of a transfer on the bus at an interrupt. */
  datatype Verdict = Failed | Completed | NextStage | GoesOn

  /** Bytes sent once the interrupt has refilled the transmit FIFO, and read commands queued. */
  function SentBy(t: Transfer, i: Irq): nat {
    if i.txEmpty then Min(|t.job.request.tx|, t.sent + i.txRoom) else t.sent
  }

  function AskedBy(t: Transfer, i: Irq): nat {
    if i.rxFull then Min(t.job.request.toReceive, t.asked + i.readRoom) else t.asked
  }

  function Judge(d: Driver, i: Irq): Verdict {
    var r := d.current.job.request;
    if i.abort then Failed
    else if !i.stop || SentBy(d.current, i) < |r.tx| then GoesOn
    else if d.stage == Transmitting && r.toReceive > 0 then NextStage
    else if |d.current.rx| + |Got(i)| == r.toReceive then Completed
    else GoesOn
  }

  /**
   * With a transfer on the bus, an interrupt fails it exactly on an abort; a stop with all bytes sent
   * takes it to its receive stage, or completes it exactly when all answers are in; otherwise
   * it goes on, having used all the room offered that it had a use for.
   */
  lemma InterruptDecides(d: Driver, i: Irq)
    requires Inv(d) && OnBus(d) && PlausibleIrq(d, i) && CallbackAllowed(d, i)
    ensures var d', t := BeforeNext(d, i), d.current;
      match Judge(d, i)
      case Failed => d'.stage == Done && d'.ended == d.ended + [End(t, false)]
      case Completed => d'.stage == Done && |d'.ended| == |d.ended| + 1 && d'.ended[..|d.ended|] == d.ended
                        && d'.ended[|d.ended|].completed && d'.ended[|d.ended|].transfer.job == t.job
      case NextStage => d'.stage == Receiving && d'.ended == d.ended && d'.current.job == t.job
                        && d'.current.sent == |t.job.request.tx| && d'.current.asked == Min(t.job.request.toReceive, i.stageRoom)
      case GoesOn => d'.stage == d.stage && d'.ended == d.ended && d'.current.job == t.job
                     && d'.current.sent == SentBy(t, i) && d'.current.asked == AskedBy(t, i)
  {
    OnBusIsPartial(d);
    if i.abort {
      AcceptAllCurrent(Ended(d, false), i.callback);
    } else {
      FillsKeepRecord(d, i);
      FillsExactly(d, i);
      FillKeeps(d, i);
      if i.stop { StopDecides(OnRxFull(OnTxEmpty(d, i), i), i); }
    }
  }

  lemma StopDecides(d: Driver, i: Irq)
    requires TransferOk(d) && OnBus(d) && i.stop && !i.abort && |i.stopBytes| <= d.current.asked - |d.current.rx|
    ensures var d', t, r := OnStop(d, i), d.current, d.current.job.request;
      if t.sent == |r.tx| && d.stage == Transmitting && r.toReceive > 0 then
        && d'.stage == Receiving && d'.ended == d.ended && d'.current.job == t.job && d'.current.sent == t.sent
        && d'.current.asked == Min(r.toReceive, i.stageRoom)
      else if t.sent == |r.tx| && |t.rx| + |i.stopBytes| == r.toReceive then
        && d'.stage == Done && |d'.ended| == |d.ended| + 1 && d'.ended[..|d.ended|] == d.ended
        && d'.ended[|d.ended|].completed && d'.ended[|d.ended|].transfer.job == t.job
      else d'.stage == d.stage && d'.ended == d.ended && d'.current == t.(rx := t.rx + i.stopBytes)
  {
    var t := d.current.(rx := d.current.rx + i.stopBytes);
    OnBusIsPartial(d);
    FillReadsRecord(t, i.stageRoom);
    FillReadsCount(t, i.stageRoom);
    AcceptAllCurrent(Ended(d.(current := t), true), i.callback);
  }

  /** The enqueues of a callback are all taken, in order, if the ring has room for them. */
  lemma {:induction false} CallbackTaken(d: Driver, jobs: seq<Job>)
    requires d.stage == Done && |d.queue| + |jobs| <= QUEUE_SIZE - 1
    ensures AcceptAll(d, jobs).queue == d.queue + jobs && AcceptAll(d, jobs).accepted == d.accepted + jobs
    ensures AcceptAll(d, jobs).faults == d.faults
  {
    AcceptAllCurrent(d, jobs);
    if jobs != [] {
      CallbackTaken(d, jobs[..|jobs| - 1]);
      AcceptAllCurrent(d, jobs[..|jobs| - 1]);
      assert jobs == jobs[..|jobs| - 1] + [jobs[|jobs| - 1]];
    }
  }

  // ---- A transfer from beginning to end ----

  /** A stop condition, with these bytes in the receive FIFO, and room for read commands. */
  function StopTaking(bytes: seq<bv8>, room: nat): Irq {
    Irq(false, false, 0, false, [], 0, true, bytes, room, [], 0)
  }

  /** The only transfer, with all its bytes sent. */
  predicate AllSent(d: Driver, stage: Stage, job: Job, asked: nat) {
    && d.stage == stage && d.queue == [] && d.inProgress == {job.flag} && d.current.job == job
    && d.current.sent == |job.request.tx| && d.current.asked == asked && d.current.rx == []
  }

  lemma BusTaken(d: Driver, job: Job, room: nat)
    requires Inv(d) && d.stage == Idle && d.inProgress == {} && ValidRequest(job.request)
    requires room >= |job.request.tx| && room >= job.request.toReceive
    ensures Allowed(d, Enqueue(job)) && Allowed(Accept(d, job), StartReserved(room))
    ensures Step(Accept(d, job), StartReserved(room)).ended == d.ended
    ensures AllSent(Step(Accept(d, job), StartReserved(room)), if job.request.tx != [] then Transmitting else Receiving, job,
                    if job.request.tx != [] then 0 else job.request.toReceive)
  {
    FillTxRecord(Fresh(job), room);
    FillTxCount(Fresh(job), room);
    FillReadsRecord(Fresh(job), room);
    FillReadsCount(Fresh(job), room);
    assert {} + {job.flag} == {job.flag};
  }

  lemma SecondStage(d: Driver, job: Job)
    requires Inv(d) && AllSent(d, Transmitting, job, 0) && job.request.toReceive > 0
    ensures var i, n := StopTaking([], job.request.toReceive), job.request.toReceive;
      Allowed(d, Interrupt(i)) && AllSent(Handle(d, i), Receiving, job, n) && Handle(d, i).ended == d.ended
  {
    var i := StopTaking([], job.request.toReceive);
    CallbackOfNone(d, i);
    assert d.current.(rx := d.current.rx + []) == d.current && d.(current := d.current) == d;
    FillReadsRecord(d.current, i.stageRoom);
    FillReadsCount(d.current, i.stageRoom);
  }

  lemma LastStop(d: Driver, job: Job, bytes: seq<bv8>)
    requires Inv(d) && AllSent(d, d.stage, job, job.request.toReceive) && |bytes| == job.request.toReceive
    requires d.stage == Receiving || (d.stage == Transmitting && bytes == [])
    ensures var i := StopTaking(bytes, 0);
      && Allowed(d, Interrupt(i)) && Handle(d, i).stage == Idle && Handle(d, i).inProgress == {}
      && Handle(d, i).ended == d.ended + [End(d.current.(rx := bytes), true)]
  {
    var i := StopTaking(bytes, 0);
    CallbackOfNone(d, i);
    assert [] + bytes == bytes;
    assert {job.flag} - {job.flag} == {};
  }

  /** The end of the run is a completed transfer of this request, which wrote all of it and received these bytes. */
  ghost predicate CompletedWith(before: seq<End>, after: seq<End>, job: Job, bytes: seq<bv8>) {
    && |after| == |before| + 1 && after[..|before|] == before && after[|before|].completed
    && after[|before|].transfer.job == job && Whole(after[|before|].transfer) && after[|before|].transfer.rx == bytes
  }

  ghost predicate Good(es: seq<Event>) {
    AllowedRun(es) && LateEnds(es) == 0
  }

  lemma OneMore(es: seq<Event>, e: Event)
    requires Good(es) && Allowed(Run(es), e) && !LateEnd(Run(es), e)
    ensures Good(es + [e]) && Run(es + [e]) == Step(Run(es), e) && Inv(Run(es + [e]))
  {
    RunSnoc(es, e);
    RunKeeps(es + [e]);
  }

  lemma Begun(es: seq<Event>, job: Job) returns (all: seq<Event>)
    requires Good(es) && Inv(Run(es)) && Run(es).stage == Idle && ValidRequest(job.request)
    ensures es <= all && Good(all) && Inv(Run(all)) && Run(all).ended == Run(es).ended
    ensures AllSent(Run(all), if job.request.tx != [] then Transmitting else Receiving, job,
                    if job.request.tx != [] then 0 else job.request.toReceive)
  {
    var room := |job.request.tx| + job.request.toReceive;
    IdleHasEndedAll(es);
    BusTaken(Run(es), job, room);
    OneMore(es, Enqueue(job));
    OneMore(es + [Enqueue(job)], StartReserved(room));
    all := es + [Enqueue(job)] + [StartReserved(room)];
  }

  lemma Reading(es: seq<Event>, job: Job) returns (all: seq<Event>)
    requires Good(es) && Inv(Run(es)) && AllSent(Run(es), Transmitting, job, 0) && job.request.toReceive > 0
    ensures es <= all && Good(all) && Inv(Run(all)) && Run(all).ended == Run(es).ended
    ensures AllSent(Run(all), Receiving, job, job.request.toReceive)
  {
    var i := StopTaking([], job.request.toReceive);
    SecondStage(Run(es), job);
    OneMore(es, Interrupt(i));
    all := es + [Interrupt(i)];
  }

  lemma Completing(es: seq<Event>, job: Job, bytes: seq<bv8>) returns (all: seq<Event>)
    requires Good(es) && Inv(Run(es)) && |bytes| == job.request.toReceive
    requires AllSent(Run(es), if bytes == [] then Transmitting else Receiving, job, |bytes|)
    ensures es <= all && Good(all) && Run(all).stage == Idle && Run(all).inProgress == {}
    ensures CompletedWith(Run(es).ended, Run(all).ended, job, bytes)
  {
    var i := StopTaking(bytes, 0);
    LastStop(Run(es), job, bytes);
    OneMore(es, Interrupt(i));
    all := es + [Interrupt(i)];
    assert EndOk(Run(all).ended[|Run(es).ended|]) by { assert Run(all).ended[|Run(es).ended|] in Run(all).ended; }
  }

  /**
   * After any run that leaves the driver idle, every valid request can be carried out, whatever bytes
   * the target answers with: enqueued, started, written in full, read in full, and the driver is
   * idle again with the flag clear.
   */
  lemma RequestCarriedOut(es: seq<Event>, job: Job, bytes: seq<bv8>) returns (all: seq<Event>)
    requires AllowedRun(es) && LateEnds(es) == 0 && Run(es).stage == Idle
    requires ValidRequest(job.request) && |bytes| == job.request.toReceive
    ensures es <= all && AllowedRun(all) && LateEnds(all) == 0
    ensures Run(all).stage == Idle && Run(all).inProgress == {}
    ensures CompletedWith(Run(es).ended, Run(all).ended, job, bytes)
  {
    RunKeeps(es);
    all := Begun(es, job);
    if job.request.tx != [] && bytes != [] { all := Reading(all, job); }
    all := Completing(all, job, bytes);
  }
}
