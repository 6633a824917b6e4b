/**
 * What the I2C driver of the coprocessor promises, over whole runs: a queue of requests,
 * one transfer at a time, driven by callers, a timeout alarm and an interrupt.
 */
module AsyncI2cSpec {
  import opened Common

  const QUEUE_SIZE: nat := 16

  /** The part of a request that decides what goes over the bus. */
  datatype Request = Request(address: nat, tx: seq<bv8>, toReceive: nat)

  /** A request together with the caller's in-progress flag, which identifies the caller's slot. */
  datatype Job = Job(request: Request, flag: nat)

  /** A word written to the controller's command register. */
  datatype Word = Send(data: bv8, stop: bool) | Read(stop: bool)

  datatype Stage = Idle | Pending | Transmitting | Receiving | Done

  datatype Transfer = Transfer(job: Job, sent: nat, asked: nat, words: seq<Word>, rx: seq<bv8>)

  /** How a transfer ended. */
  datatype End = End(transfer: Transfer, completed: bool)

  datatype Driver = Driver(
    stage: Stage,
    current: Transfer,          // that of the last transfer when idle or pending
    reserved: Job,              // when pending, the request for which the bus is reserved
    queue: seq<Job>,
    inProgress: set<nat>,       // the flags that are set
    alarm: bool,                // the timeout alarm is scheduled
    accepted: seq<Job>,
    started: seq<Job>,
    ended: seq<End>,
    faults: nat)

  /** Bits 3 to 6 of the address are all zeros or all ones. */
  predicate ReservedAddress(address: nat) {
    address / 8 % 16 == 0 || address / 8 % 16 == 15
  }

  predicate ValidRequest(r: Request) {
    && r.address < 0x80 && !ReservedAddress(r.address)
    && (r.tx != [] || r.toReceive > 0)
  }

  function Fresh(job: Job): Transfer {
    Transfer(job, 0, 0, [], [])
  }

  /** Writes data bytes while there is room, marking the last one with STOP. */
  function FillTx(t: Transfer, room: nat): Transfer
    decreases room
  {
    var tx := t.job.request.tx;
    if room == 0 || t.sent >= |tx| then t
    else FillTx(t.(sent := t.sent + 1, words := t.words + [Send(tx[t.sent], t.sent + 1 == |tx|)]), room - 1)
  }

  /** Writes read commands while there is room, marking the last one with STOP. */
  function FillReads(t: Transfer, room: nat): Transfer
    decreases room
  {
    var n := t.job.request.toReceive;
    if room == 0 || t.asked >= n then t
    else FillReads(t.(asked := t.asked + 1, words := t.words + [Read(t.asked + 1 == n)]), room - 1)
  }

  function Start(d: Driver, job: Job, room: nat): Driver {
    var d1 := d.(current := Fresh(job), alarm := true, started := d.started + [job]);
    if job.request.tx != [] then d1.(stage := Transmitting, current := FillTx(d1.current, room))
    else if job.request.toReceive > 0 then d1.(stage := Receiving, current := FillReads(d1.current, room))
    else d1.(inProgress := d1.inProgress - {job.flag})
  }

  /** The critical section of an enqueue: reject when the ring is full, reserve an idle bus, queue otherwise. */
  function Accept(d: Driver, job: Job): Driver {
    if |d.queue| >= QUEUE_SIZE - 1 then d.(faults := d.faults + 1)
    else
      var d1 := d.(inProgress := d.inProgress + {job.flag}, accepted := d.accepted + [job]);
      if d.stage == Idle then d1.(stage := Pending, reserved := job)
      else d1.(queue := d1.queue + [job])
  }

  /** The enqueues made by a callback. */
  function AcceptAll(d: Driver, jobs: seq<Job>): Driver {
    if jobs == [] then d else Accept(AcceptAll(d, jobs[..|jobs| - 1]), jobs[|jobs| - 1])
  }

  function Finish(d: Driver, completed: bool, callback: seq<Job>): Driver {
    AcceptAll(Ended(d, completed), callback)
  }

  function Ended(d: Driver, completed: bool): Driver {
    d.(stage := Done, alarm := false, inProgress := d.inProgress - {d.current.job.flag},
       ended := d.ended + [End(d.current, completed)])
  }

  /** One interrupt: which conditions are pending, what the FIFOs have room for or hold, what the callback enqueues. */
  datatype Irq = Irq(
    abort: bool,
    txEmpty: bool, txRoom: nat,
    rxFull: bool, rxBytes: seq<bv8>, readRoom: nat,
    stop: bool, stopBytes: seq<bv8>, stageRoom: nat,
    callback: seq<Job>,
    nextRoom: nat)

  function OnAbort(d: Driver, i: Irq): Driver {
    if i.abort then Finish(d, false, i.callback) else d
  }

  function OnTxEmpty(d: Driver, i: Irq): Driver {
    if !i.abort && i.txEmpty then d.(current := FillTx(d.current, i.txRoom)) else d
  }

  function OnRxFull(d: Driver, i: Irq): Driver {
    if !i.abort && i.rxFull then
      d.(current := FillReads(d.current.(rx := d.current.rx + i.rxBytes), i.readRoom))
    else d
  }

  function OnStop(d: Driver, i: Irq): Driver {
    if !i.stop then d
    else
      var t := d.current.(rx := d.current.rx + i.stopBytes);
      var d1 := d.(current := t);
      var r := t.job.request;
      if i.abort then d1
      else if d.stage == Transmitting && t.sent == |r.tx| && r.toReceive > 0 then
        d1.(stage := Receiving, current := FillReads(t, i.stageRoom))
      else if t.sent == |r.tx| && |t.rx| == r.toReceive then Finish(d1, true, i.callback)
      else d1
  }

  function Next(d: Driver, room: nat): Driver {
    if d.stage != Done then d
    else if d.queue != [] then Start(d.(queue := d.queue[1..]), d.queue[0], room)
    else d.(stage := Idle)
  }

  function Handle(d: Driver, i: Irq): Driver {
    Next(OnStop(OnRxFull(OnTxEmpty(OnAbort(d, i), i), i), i), i.nextRoom)
  }

  datatype Event = Enqueue(job: Job) | StartReserved(room: nat) | Timeout | Interrupt(irq: Irq)

  function Step(d: Driver, e: Event): Driver {
    match e
    case Enqueue(job) => Accept(d, job)
    case StartReserved(room) => Start(d, d.reserved, room)
    case Timeout => d.(alarm := false)
    case Interrupt(irq) => Handle(d, irq)
  }

  const NO_JOB := Job(Request(0, [], 0), 0)
  const INITIAL := Driver(Idle, Fresh(NO_JOB), NO_JOB, [], {}, false, [], [], [], 0)

  function Run(es: seq<Event>): Driver {
    if es == [] then INITIAL else Step(Run(es[..|es| - 1]), es[|es| - 1])
  }

  // ---- What callers and the hardware keep to ----

  /** A caller enqueues a valid request whose flag is not set. */
  ghost predicate MayEnqueue(d: Driver, job: Job) {
    ValidRequest(job.request) && job.flag !in d.inProgress
  }

  ghost predicate MayEnqueueAll(d: Driver, jobs: seq<Job>) {
    jobs != [] ==>
      && MayEnqueueAll(d, jobs[..|jobs| - 1])
      && MayEnqueue(AcceptAll(d, jobs[..|jobs| - 1]), jobs[|jobs| - 1])
  }

  predicate OnBus(d: Driver) {
    d.stage == Transmitting || d.stage == Receiving
  }

  /** The receive FIFO holds no more bytes than read commands are unanswered. */
  ghost predicate PlausibleIrq(d: Driver, i: Irq) {
    && (if !i.abort && i.rxFull then |i.rxBytes| else 0) + (if i.stop then |i.stopBytes| else 0)
       <= d.current.asked - |d.current.rx|
    && (i.rxFull && !i.abort ==> i.rxBytes != [])
  }

  ghost predicate CallbackAllowed(d: Driver, i: Irq) {
    if i.abort then MayEnqueueAll(Ended(d, false), i.callback)
    else
      var d1 := OnRxFull(OnTxEmpty(d, i), i);
      MayEnqueueAll(Ended(d1.(current := d1.current.(rx := d1.current.rx + i.stopBytes)), true), i.callback)
  }

  ghost predicate Allowed(d: Driver, e: Event) {
    match e
    case Enqueue(job) => MayEnqueue(d, job)
    case StartReserved(_) => d.stage == Pending
    case Timeout => d.alarm
    case Interrupt(i) => PlausibleIrq(d, i) && CallbackAllowed(d, i)
  }

  ghost predicate AllowedRun(es: seq<Event>) {
    es != [] ==> AllowedRun(es[..|es| - 1]) && Allowed(Run(es[..|es| - 1]), es[|es| - 1])
  }

  // ---- The invariant ----

  function TxWords(tx: seq<bv8>): (ws: seq<Word>)
    ensures |ws| == |tx|
  {
    seq(|tx|, i requires 0 <= i < |tx| => Send(tx[i], i + 1 == |tx|))
  }

  function ReadWords(n: nat): (ws: seq<Word>)
    ensures |ws| == n
  {
    seq(n, i => Read(i + 1 == n))
  }

  /** The data bytes sent so far and nothing else. */
  ghost predicate SendsData(t: Transfer) {
    && t.sent <= |t.job.request.tx| && t.asked == 0 && t.rx == []
    && t.words == TxWords(t.job.request.tx)[..t.sent]
  }

  /** All data bytes, then the read commands queued so far; no more answers than commands. */
  ghost predicate ReadsData(t: Transfer) {
    var r := t.job.request;
    && t.sent == |r.tx| && |t.rx| <= t.asked <= r.toReceive
    && t.words == TxWords(r.tx) + ReadWords(r.toReceive)[..t.asked]
  }

  /** A completed transfer wrote exactly its data and its read commands, STOP on the last of each, and has every answer. */
  ghost predicate Whole(t: Transfer) {
    var r := t.job.request;
    t.words == TxWords(r.tx) + ReadWords(r.toReceive) && |t.rx| == r.toReceive
  }

  /** What has been written is the beginning of what should be, and no more has been received than was asked for. */
  ghost predicate Partial(t: Transfer) {
    && t.words <= TxWords(t.job.request.tx) + ReadWords(t.job.request.toReceive)
    && |t.rx| <= t.job.request.toReceive
  }

  /** No count of the record has passed its target, whatever became of the transfer. */
  ghost predicate RecordOk(t: Transfer) {
    t.sent <= |t.job.request.tx| && |t.rx| <= t.asked <= t.job.request.toReceive
  }

  ghost predicate EndOk(e: End) {
    Partial(e.transfer) && (e.completed ==> Whole(e.transfer))
  }

  function Active(d: Driver): seq<Job> {
    if d.stage == Transmitting || d.stage == Receiving then [d.current.job] else []
  }

  /** Accepted and not ended, oldest first. */
  function Outstanding(d: Driver): seq<Job> {
    (if d.stage == Pending then [d.reserved] else Active(d)) + d.queue
  }

  function EndedJobs(ends: seq<End>): (js: seq<Job>)
    ensures |js| == |ends|
  {
    seq(|ends|, i requires 0 <= i < |ends| => ends[i].transfer.job)
  }

  ghost predicate FlagsMatch(jobs: seq<Job>, flags: set<nat>) {
    && (forall i, j :: 0 <= i < j < |jobs| ==> jobs[i].flag != jobs[j].flag)
    && (forall i :: 0 <= i < |jobs| ==> jobs[i].flag in flags)
    && (forall f :: f in flags ==> exists i :: 0 <= i < |jobs| && jobs[i].flag == f)
  }

  ghost predicate TransferOk(d: Driver) {
    match d.stage
    case Transmitting => SendsData(d.current) && d.current.job.request.tx != []
    case Receiving => ReadsData(d.current) && d.current.job.request.toReceive > 0
    case _ => RecordOk(d.current)
  }

  /** Holds in the middle of an interrupt too, when the stage may be Done. */
  ghost predicate Books(d: Driver) {
    && |d.queue| <= QUEUE_SIZE - 1
    && d.accepted == EndedJobs(d.ended) + Outstanding(d)
    && d.started == EndedJobs(d.ended) + Active(d)
    && FlagsMatch(Outstanding(d), d.inProgress)
    && (forall j :: j in Outstanding(d) ==> ValidRequest(j.request))
    && (d.alarm ==> OnBus(d))
    && TransferOk(d)
    && (forall e :: e in d.ended ==> EndOk(e))
  }

  ghost predicate Inv(d: Driver) {
    Books(d) && d.stage != Done && (d.stage == Idle ==> d.queue == [])
  }

  // ---- Every step keeps the invariant ----

  lemma {:induction false} FillTxSends(t: Transfer, room: nat)
    requires SendsData(t)
    ensures SendsData(FillTx(t, room)) && FillTx(t, room).job == t.job
    decreases room
  {
    var tx := t.job.request.tx;
    if room > 0 && t.sent < |tx| {
      var t' := t.(sent := t.sent + 1, words := t.words + [Send(tx[t.sent], t.sent + 1 == |tx|)]);
      assert TxWords(tx)[..t.sent + 1] == TxWords(tx)[..t.sent] + [TxWords(tx)[t.sent]];
      FillTxSends(t', room - 1);
    }
  }

  lemma {:induction false} FillReadsReads(t: Transfer, room: nat)
    requires ReadsData(t)
    ensures ReadsData(FillReads(t, room)) && FillReads(t, room).job == t.job && FillReads(t, room).rx == t.rx
    decreases room
  {
    var n := t.job.request.toReceive;
    if room > 0 && t.asked < n {
      var t' := t.(asked := t.asked + 1, words := t.words + [Read(t.asked + 1 == n)]);
      assert ReadWords(n)[..t.asked + 1] == ReadWords(n)[..t.asked] + [ReadWords(n)[t.asked]];
      FillReadsReads(t', room - 1);
    }
  }

  lemma BothStages(t: Transfer)
    requires SendsData(t) && t.sent == |t.job.request.tx|
    ensures ReadsData(t)
  {
    assert TxWords(t.job.request.tx)[..t.sent] == TxWords(t.job.request.tx);
    assert ReadWords(t.job.request.toReceive)[..0] == [];
  }

  lemma FreshSends(job: Job)
    ensures SendsData(Fresh(job))
    ensures job.request.tx == [] ==> ReadsData(Fresh(job))
  {
    if job.request.tx == [] { BothStages(Fresh(job)); }
  }

  /** `job` has been taken from the front of what is outstanding and no alarm is scheduled. */
  ghost predicate ReadyToStart(d: Driver, job: Job) {
    && |d.queue| <= QUEUE_SIZE - 1
    && d.accepted == EndedJobs(d.ended) + ([job] + d.queue)
    && d.started == EndedJobs(d.ended)
    && FlagsMatch([job] + d.queue, d.inProgress)
    && (forall j :: j in [job] + d.queue ==> ValidRequest(j.request))
    && !d.alarm
    && (forall e :: e in d.ended ==> EndOk(e))
  }

  lemma StartKeeps(d: Driver, job: Job, room: nat)
    requires ReadyToStart(d, job)
    ensures Inv(Start(d, job, room))
  {
    FreshSends(job);
    FillTxSends(Fresh(job), room);
    assert ValidRequest(job.request) by { assert job in [job] + d.queue; }
    if job.request.tx == [] { FillReadsReads(Fresh(job), room); }
  }

  lemma AppendFlag(jobs: seq<Job>, flags: set<nat>, job: Job)
    requires FlagsMatch(jobs, flags) && job.flag !in flags
    ensures FlagsMatch(jobs + [job], flags + {job.flag})
  {
    var all := jobs + [job];
    forall f | f in flags + {job.flag} ensures exists i :: 0 <= i < |all| && all[i].flag == f {
      if f in flags {
        var i :| 0 <= i < |jobs| && jobs[i].flag == f;
        assert all[i].flag == f;
      } else {
        assert all[|jobs|].flag == f;
      }
    }
  }

  lemma DropFlag(job: Job, jobs: seq<Job>, flags: set<nat>)
    requires FlagsMatch([job] + jobs, flags)
    ensures FlagsMatch(jobs, flags - {job.flag})
  {
    var all := [job] + jobs;
    forall i | 0 <= i < |jobs| ensures jobs[i].flag in flags - {job.flag} {
      assert all[i + 1] == jobs[i] && all[0].flag != all[i + 1].flag;
    }
    forall f | f in flags - {job.flag} ensures exists i :: 0 <= i < |jobs| && jobs[i].flag == f {
      var i :| 0 <= i < |all| && all[i].flag == f;
      assert jobs[i - 1].flag == f;
    }
    forall i, j | 0 <= i < j < |jobs| ensures jobs[i].flag != jobs[j].flag {
      assert all[i + 1] == jobs[i] && all[j + 1] == jobs[j];
    }
  }

  lemma OutstandingGrows(d: Driver, job: Job)
    requires |d.queue| < QUEUE_SIZE - 1 && (d.stage == Idle ==> d.queue == [])
    ensures Outstanding(Accept(d, job)) == Outstanding(d) + [job] && Active(Accept(d, job)) == Active(d)
  {}

  lemma AcceptKeeps(d: Driver, job: Job)
    requires Books(d) && MayEnqueue(d, job) && (d.stage == Idle ==> d.queue == [])
    ensures Books(Accept(d, job)) && Accept(d, job).ended == d.ended
    ensures d.stage == Idle ==> Accept(d, job).stage == Pending
    ensures d.stage != Idle ==> Accept(d, job).stage == d.stage && Accept(d, job).current == d.current
  {
    if |d.queue| < QUEUE_SIZE - 1 {
      var out := Outstanding(d);
      OutstandingGrows(d, job);
      AppendFlag(out, d.inProgress, job);
      AllValid(out, job);
      Regroup(EndedJobs(d.ended), out, [job]);
    }
  }

  lemma AllValid(jobs: seq<Job>, job: Job)
    requires ValidRequest(job.request) && forall j :: j in jobs ==> ValidRequest(j.request)
    ensures forall j :: j in jobs + [job] ==> ValidRequest(j.request)
  {}

  lemma {:induction false} AcceptAllKeeps(d: Driver, jobs: seq<Job>)
    requires Books(d) && d.stage == Done && MayEnqueueAll(d, jobs)
    ensures Books(AcceptAll(d, jobs)) && AcceptAll(d, jobs).stage == Done
    ensures AcceptAll(d, jobs).ended == d.ended && AcceptAll(d, jobs).current == d.current
  {
    if jobs != [] {
      AcceptAllKeeps(d, jobs[..|jobs| - 1]);
      AcceptKeeps(AcceptAll(d, jobs[..|jobs| - 1]), jobs[|jobs| - 1]);
    }
  }

  lemma EndedJobsSnoc(ends: seq<End>, e: End)
    ensures EndedJobs(ends + [e]) == EndedJobs(ends) + [e.transfer.job]
  {}

  lemma TakePrefix(a: seq<Word>, b: seq<Word>, n: nat)
    requires n <= |a|
    ensures a[..n] <= a + b
  {}

  lemma AppendPrefix(a: seq<Word>, b: seq<Word>, n: nat)
    requires n <= |b|
    ensures a + b[..n] <= a + b
  {}

  lemma OnBusIsPartial(d: Driver)
    requires OnBus(d) && TransferOk(d)
    ensures Partial(d.current) && RecordOk(d.current)
  {
    var r := d.current.job.request;
    if d.stage == Transmitting {
      TakePrefix(TxWords(r.tx), ReadWords(r.toReceive), d.current.sent);
    } else {
      AppendPrefix(TxWords(r.tx), ReadWords(r.toReceive), d.current.asked);
    }
  }

  lemma EndedKeeps(d: Driver, completed: bool)
    requires Books(d) && OnBus(d) && (completed ==> Whole(d.current))
    ensures Books(Ended(d, completed))
  {
    var job := d.current.job;
    OnBusIsPartial(d);
    assert Active(d) == [job] && Outstanding(d) == [job] + d.queue;
    DropFlag(job, d.queue, d.inProgress);
    EndedJobsSnoc(d.ended, End(d.current, completed));
    Regroup(EndedJobs(d.ended), [job], d.queue);
    QueueValid(d);
    DoneBooks(Ended(d, completed));
  }

  lemma QueueValid(d: Driver)
    requires forall j :: j in Outstanding(d) ==> ValidRequest(j.request)
    ensures forall j :: j in d.queue ==> ValidRequest(j.request)
  {
    forall j | j in d.queue ensures ValidRequest(j.request) { assert j in Outstanding(d); }
  }

  /** The books of a driver whose transfer has just ended: only the queue is outstanding. */
  lemma DoneBooks(d: Driver)
    requires d.stage == Done && |d.queue| <= QUEUE_SIZE - 1 && !d.alarm
    requires d.accepted == EndedJobs(d.ended) + d.queue && d.started == EndedJobs(d.ended)
    requires FlagsMatch(d.queue, d.inProgress) && forall j :: j in d.queue ==> ValidRequest(j.request)
    requires RecordOk(d.current) && forall e :: e in d.ended ==> EndOk(e)
    ensures Books(d)
  {
    assert Active(d) == [] && Outstanding(d) == d.queue;
    assert EndedJobs(d.ended) + [] == EndedJobs(d.ended);
  }

  lemma FinishKeeps(d: Driver, completed: bool, callback: seq<Job>)
    requires Books(d) && OnBus(d) && (completed ==> Whole(d.current))
    requires MayEnqueueAll(Ended(d, completed), callback)
    ensures Books(Finish(d, completed, callback)) && Finish(d, completed, callback).stage == Done
    ensures Finish(d, completed, callback).current == d.current
  {
    EndedKeeps(d, completed);
    AcceptAllKeeps(Ended(d, completed), callback);
  }

  lemma FrontOfQueue(d: Driver)
    requires Books(d) && d.stage == Done && d.queue != []
    ensures ReadyToStart(d.(queue := d.queue[1..]), d.queue[0])
  {
    assert d.queue == [d.queue[0]] + d.queue[1..] && Outstanding(d) == d.queue;
    assert EndedJobs(d.ended) + [] == EndedJobs(d.ended);
  }

  lemma NextKeeps(d: Driver, room: nat)
    requires Books(d) && d.stage != Idle
    ensures Inv(Next(d, room))
  {
    if d.stage == Done {
      if d.queue == [] {
        IdleBooks(d);
      } else {
        FrontOfQueue(d);
        StartKeeps(d.(queue := d.queue[1..]), d.queue[0], room);
      }
    }
  }

  lemma IdleBooks(d: Driver)
    requires Books(d) && d.stage == Done && d.queue == []
    ensures Books(d.(stage := Idle))
  {
    assert Outstanding(d.(stage := Idle)) == Outstanding(d) && Active(d.(stage := Idle)) == Active(d);
  }

  /** Before a stop condition is looked at, a transfer still on the bus has only grown. */
  lemma FillKeeps(d: Driver, i: Irq)
    requires Inv(d) && OnBus(d) && PlausibleIrq(d, i) && !i.abort
    ensures var d' := OnRxFull(OnTxEmpty(d, i), i);
      && Books(d') && d'.stage == d.stage && d'.current.job == d.current.job && d'.queue == d.queue
      && (i.stop ==> |i.stopBytes| <= d'.current.asked - |d'.current.rx|)
      && d' == d.(current := d'.current)
  {
    var t := d.current;
    if d.stage == Transmitting {
      if i.txEmpty { FillTxSends(t, i.txRoom); }
    } else {
      assert FillTx(t, i.txRoom) == t;
      if i.rxFull {
        var t1 := t.(rx := t.rx + i.rxBytes);
        FillReadsReads(t1, i.readRoom);
        FillReadsGrow(t1, i.readRoom);
      }
    }
  }

  lemma {:induction false} FillReadsGrow(t: Transfer, room: nat)
    ensures FillReads(t, room).asked >= t.asked
    decreases room
  {
    var n := t.job.request.toReceive;
    if room > 0 && t.asked < n {
      FillReadsGrow(t.(asked := t.asked + 1, words := t.words + [Read(t.asked + 1 == n)]), room - 1);
    }
  }

  lemma StopKeeps(d: Driver, i: Irq)
    requires Books(d) && OnBus(d) && i.stop && !i.abort && |i.stopBytes| <= d.current.asked - |d.current.rx|
    requires MayEnqueueAll(Ended(d.(current := d.current.(rx := d.current.rx + i.stopBytes)), true), i.callback)
    ensures Books(OnStop(d, i)) && OnStop(d, i).stage != Idle
  {
    var t := d.current.(rx := d.current.rx + i.stopBytes);
    var d1 := d.(current := t);
    var r := t.job.request;
    if d.stage == Transmitting && t.sent == |r.tx| {
      assert t == d.current;
      BothStages(t);
      FillReadsReads(t, i.stageRoom);
    }
    if t.sent == |r.tx| && |t.rx| == r.toReceive {
      assert ReadWords(r.toReceive)[..r.toReceive] == ReadWords(r.toReceive);
      if !(d.stage == Transmitting && r.toReceive > 0) {
        FinishKeeps(d1, true, i.callback);
      }
    }
  }

  /** The state when the handler is about to look at the queue. */
  function BeforeNext(d: Driver, i: Irq): Driver {
    OnStop(OnRxFull(OnTxEmpty(OnAbort(d, i), i), i), i)
  }

  lemma DrainWhenDone(d: Driver, bytes: seq<bv8>)
    requires Books(d) && d.stage == Done && |bytes| <= d.current.asked - |d.current.rx|
    ensures Books(d.(current := d.current.(rx := d.current.rx + bytes)))
  {
    var d' := d.(current := d.current.(rx := d.current.rx + bytes));
    assert Outstanding(d') == Outstanding(d) && Active(d') == Active(d);
  }

  lemma AbortKeeps(d: Driver, i: Irq)
    requires Books(d) && OnBus(d) && PlausibleIrq(d, i) && CallbackAllowed(d, i) && i.abort
    ensures Books(BeforeNext(d, i)) && BeforeNext(d, i).stage == Done
  {
    FinishKeeps(d, false, i.callback);
    if i.stop { DrainWhenDone(Finish(d, false, i.callback), i.stopBytes); }
  }

  lemma BeforeNextKeeps(d: Driver, i: Irq)
    requires Inv(d) && OnBus(d) && PlausibleIrq(d, i) && CallbackAllowed(d, i)
    ensures Books(BeforeNext(d, i)) && BeforeNext(d, i).stage != Idle
  {
    if i.abort {
      AbortKeeps(d, i);
    } else {
      FillKeeps(d, i);
      if i.stop { StopKeeps(OnRxFull(OnTxEmpty(d, i), i), i); }
    }
  }

  lemma HandleKeeps(d: Driver, i: Irq)
    requires Inv(d) && OnBus(d) && PlausibleIrq(d, i) && CallbackAllowed(d, i)
    ensures Inv(Handle(d, i))
  {
    BeforeNextKeeps(d, i);
    NextKeeps(BeforeNext(d, i), i.nextRoom);
  }

  // ---- Interrupts with no transfer on the bus ----

  lemma {:induction false} FillTxRecord(t: Transfer, room: nat)
    requires t.sent <= |t.job.request.tx|
    ensures var t' := FillTx(t, room);
      t'.job == t.job && t.sent <= t'.sent <= |t.job.request.tx| && t'.asked == t.asked && t'.rx == t.rx
    decreases room
  {
    var tx := t.job.request.tx;
    if room > 0 && t.sent < |tx| {
      FillTxRecord(t.(sent := t.sent + 1, words := t.words + [Send(tx[t.sent], t.sent + 1 == |tx|)]), room - 1);
    }
  }

  lemma {:induction false} FillReadsRecord(t: Transfer, room: nat)
    requires t.asked <= t.job.request.toReceive
    ensures var t' := FillReads(t, room);
      t'.job == t.job && t.asked <= t'.asked <= t.job.request.toReceive && t'.sent == t.sent && t'.rx == t.rx
    decreases room
  {
    var n := t.job.request.toReceive;
    if room > 0 && t.asked < n {
      FillReadsRecord(t.(asked := t.asked + 1, words := t.words + [Read(t.asked + 1 == n)]), room - 1);
    }
  }

  /** Fills and drains touch only the record, and keep its counts in order. */
  lemma FillsKeepRecord(d: Driver, i: Irq)
    requires RecordOk(d.current) && PlausibleIrq(d, i) && !i.abort
    ensures var d' := OnRxFull(OnTxEmpty(d, i), i);
      && d' == d.(current := d'.current) && d'.current.job == d.current.job && RecordOk(d'.current)
      && (i.stop ==> |i.stopBytes| <= d'.current.asked - |d'.current.rx|)
  {
    FillTxRecord(d.current, i.txRoom);
    var t := OnTxEmpty(d, i).current;
    if i.rxFull { FillReadsRecord(t.(rx := t.rx + i.rxBytes), i.readRoom); }
  }

  /** Received bytes never run past what the request asked for, whatever the stage. */
  lemma BytesFit(d: Driver, i: Irq)
    requires RecordOk(d.current) && PlausibleIrq(d, i)
    ensures var n := d.current.job.request.toReceive;
      && (i.abort && i.stop ==> |d.current.rx| + |i.stopBytes| <= n)
      && (!i.abort && i.rxFull ==> |d.current.rx| + |i.rxBytes| <= n)
      && (!i.abort && i.stop ==> |OnRxFull(OnTxEmpty(d, i), i).current.rx| + |i.stopBytes| <= n)
  {
    if !i.abort { FillsKeepRecord(d, i); }
  }

  /** All data has been sent and all answers are in once the FIFOs have been filled and drained. */
  predicate CountsMet(d: Driver, i: Irq) {
    var t := OnRxFull(OnTxEmpty(d, i), i).current;
    t.sent == |t.job.request.tx| && |t.rx + i.stopBytes| == t.job.request.toReceive
  }

  /** With no transfer on the bus, what the handler takes for the end of the one that it remembers. */
  predicate EndsAgain(d: Driver, i: Irq) {
    i.abort || (i.stop && CountsMet(d, i))
  }

  predicate LateEnd(d: Driver, e: Event) {
    e.Interrupt? && !OnBus(d) && EndsAgain(d, e.irq)
  }

  function LateEnds(es: seq<Event>): nat {
    if es == [] then 0
    else LateEnds(es[..|es| - 1]) + if LateEnd(Run(es[..|es| - 1]), es[|es| - 1]) then 1 else 0
  }

  /** A late interrupt that ends nothing leaves all but the record alone; that it may write for a dead request is a matter of its own. */
  lemma EndsNothing(d: Driver, i: Irq)
    requires RecordOk(d.current) && d.stage in {Idle, Pending} && PlausibleIrq(d, i) && !EndsAgain(d, i)
    ensures Handle(d, i) == d.(current := Handle(d, i).current) && RecordOk(Handle(d, i).current)
  {
    FillsKeepRecord(d, i);
  }

  lemma EndsNothingKeeps(d: Driver, i: Irq)
    requires Inv(d) && !OnBus(d) && PlausibleIrq(d, i) && !EndsAgain(d, i)
    ensures Inv(Handle(d, i))
  {
    EndsNothing(d, i);
    assert Outstanding(Handle(d, i)) == Outstanding(d) && Active(Handle(d, i)) == Active(d);
  }

  // What is written for a request that has ended.

  /** A fill has room and something left to write, or a drain has bytes. */
  predicate Writes(d: Driver, i: Irq) {
    var t, r := d.current, d.current.job.request;
    || (!i.abort && i.txEmpty && i.txRoom > 0 && t.sent < |r.tx|)
    || (!i.abort && i.rxFull && (i.rxBytes != [] || (i.readRoom > 0 && t.asked < r.toReceive)))
    || (i.stop && i.stopBytes != [])
  }

  lemma {:induction false} FillTxWrites(t: Transfer, room: nat)
    ensures t.words <= FillTx(t, room).words
    ensures FillTx(t, room).words == t.words <==> room == 0 || t.sent >= |t.job.request.tx|
    decreases room
  {
    var tx := t.job.request.tx;
    if room > 0 && t.sent < |tx| {
      FillTxWrites(t.(sent := t.sent + 1, words := t.words + [Send(tx[t.sent], t.sent + 1 == |tx|)]), room - 1);
    }
  }

  lemma {:induction false} FillReadsWrites(t: Transfer, room: nat)
    ensures t.words <= FillReads(t, room).words
    ensures FillReads(t, room).words == t.words <==> room == 0 || t.asked >= t.job.request.toReceive
    decreases room
  {
    var n := t.job.request.toReceive;
    if room > 0 && t.asked < n {
      FillReadsWrites(t.(asked := t.asked + 1, words := t.words + [Read(t.asked + 1 == n)]), room - 1);
    }
  }

  lemma {:induction false} AcceptAllCurrent(d: Driver, jobs: seq<Job>)
    requires d.stage == Done
    ensures AcceptAll(d, jobs).current == d.current && AcceptAll(d, jobs).stage == Done && AcceptAll(d, jobs).started == d.started
    ensures AcceptAll(d, jobs).ended == d.ended && AcceptAll(d, jobs).alarm == d.alarm
  {
    if jobs != [] { AcceptAllCurrent(d, jobs[..|jobs| - 1]); }
  }

  predicate SameOutput(t: Transfer, u: Transfer) {
    u.words == t.words && u.rx == t.rx
  }

  lemma FillsWrite(d: Driver, i: Irq)
    requires RecordOk(d.current) && PlausibleIrq(d, i) && !i.abort
    ensures SameOutput(d.current, OnRxFull(OnTxEmpty(d, i), i).current) <==> !Writes(d, i.(stop := false))
    ensures |d.current.rx| <= |OnRxFull(OnTxEmpty(d, i), i).current.rx|
  {
    FillTxRecord(d.current, i.txRoom);
    FillTxWrites(d.current, i.txRoom);
    var t := OnTxEmpty(d, i).current;
    var u := t.(rx := t.rx + i.rxBytes);
    if i.rxFull {
      FillReadsRecord(u, i.readRoom);
      FillReadsWrites(u, i.readRoom);
    }
  }

  lemma StopWrites(d: Driver, i: Irq)
    requires d.stage in {Idle, Pending} && !i.abort && i.stop
    ensures OnStop(d, i).current == d.current.(rx := d.current.rx + i.stopBytes)
  {
    var d1 := d.(current := d.current.(rx := d.current.rx + i.stopBytes));
    AcceptAllCurrent(Ended(d1, true), i.callback);
  }

  lemma NextCurrent(d: Driver, room: nat)
    ensures Next(d, room).started == d.started ==> Next(d, room).current == d.current
  {
    if d.stage == Done && d.queue != [] {
      assert |Next(d, room).started| == |d.started| + 1;
    }
  }

  lemma BeforeNextStarts(d: Driver, i: Irq)
    requires d.stage in {Idle, Pending}
    ensures BeforeNext(d, i).started == d.started
  {
    AcceptAllCurrent(Ended(d, false), i.callback);
    if i.stop && !i.abort {
      var d1 := OnRxFull(OnTxEmpty(d, i), i);
      AcceptAllCurrent(Ended(d1.(current := d1.current.(rx := d1.current.rx + i.stopBytes)), true), i.callback);
    }
  }

  /**
   * With no transfer on the bus, an interrupt leaves the command register and the caller's buffer of
   * the remembered request alone if and only if no fill has room and something left to write
   * and no drain has bytes; whether it ends anything or not.
   */
  lemma LateWrites(d: Driver, i: Irq)
    requires RecordOk(d.current) && d.stage in {Idle, Pending} && PlausibleIrq(d, i)
    ensures SameOutput(d.current, BeforeNext(d, i).current) <==> !Writes(d, i)
    ensures Handle(d, i).started == d.started ==> (SameOutput(d.current, Handle(d, i).current) <==> !Writes(d, i))
  {
    if i.abort {
      AcceptAllCurrent(Ended(d, false), i.callback);
    } else {
      FillsWrite(d, i);
      if i.stop { StopWrites(OnRxFull(OnTxEmpty(d, i), i), i); }
    }
    BeforeNextStarts(d, i);
    NextCurrent(BeforeNext(d, i), i.nextRoom);
  }

  // How many ends there are too many.

  /** Holds in every allowed run, also after a late end. */
  ghost predicate Sane(d: Driver) {
    && d.stage != Done && RecordOk(d.current)
    && (forall j :: j in d.queue ==> ValidRequest(j.request))
    && (d.stage == Pending ==> ValidRequest(d.reserved.request))
  }

  function Surplus(d: Driver): int {
    |d.ended| + |Active(d)| - |d.started|
  }

  lemma {:induction false} AcceptAllSane(d: Driver, jobs: seq<Job>)
    requires d.stage == Done && MayEnqueueAll(d, jobs) && forall j :: j in d.queue ==> ValidRequest(j.request)
    ensures var d' := AcceptAll(d, jobs);
      && d'.stage == Done && d'.current == d.current && d'.ended == d.ended && d'.started == d.started && d'.alarm == d.alarm
      && forall j :: j in d'.queue ==> ValidRequest(j.request)
  {
    if jobs != [] { AcceptAllSane(d, jobs[..|jobs| - 1]); }
  }

  lemma StartSane(d: Driver, job: Job, room: nat)
    requires ValidRequest(job.request) && forall j :: j in d.queue ==> ValidRequest(j.request)
    ensures Sane(Start(d, job, room)) && Surplus(Start(d, job, room)) == |d.ended| - |d.started|
  {
    FillTxRecord(Fresh(job), room);
    FillReadsRecord(Fresh(job), room);
  }

  lemma NextSane(d: Driver, room: nat)
    requires d.stage == Done && RecordOk(d.current) && forall j :: j in d.queue ==> ValidRequest(j.request)
    ensures Sane(Next(d, room)) && Surplus(Next(d, room)) == |d.ended| - |d.started|
  {
    if d.queue != [] { StartSane(d.(queue := d.queue[1..]), d.queue[0], room); }
  }

  lemma FinishSane(d: Driver, completed: bool, callback: seq<Job>)
    requires RecordOk(d.current) && MayEnqueueAll(Ended(d, completed), callback)
    requires forall j :: j in d.queue ==> ValidRequest(j.request)
    ensures var d' := Finish(d, completed, callback);
      && d'.stage == Done && d'.current == d.current && |d'.ended| == |d.ended| + 1 && d'.started == d.started && !d'.alarm
      && forall j :: j in d'.queue ==> ValidRequest(j.request)
  {
    AcceptAllSane(Ended(d, completed), callback);
  }

  lemma AbortSane(d: Driver, i: Irq)
    requires Sane(d) && PlausibleIrq(d, i) && CallbackAllowed(d, i) && i.abort
    ensures Sane(Handle(d, i)) && Surplus(Handle(d, i)) == |d.ended| + 1 - |d.started|
  {
    FinishSane(d, false, i.callback);
    var d1 := BeforeNext(d, i);
    assert d1.stage == Done && RecordOk(d1.current);
    NextSane(d1, i.nextRoom);
  }

  /** What a stop condition does to a record that has been filled and drained. */
  lemma StopSane(d: Driver, i: Irq)
    requires Sane(d) && !i.abort && i.stop && |i.stopBytes| <= d.current.asked - |d.current.rx|
    requires MayEnqueueAll(Ended(d.(current := d.current.(rx := d.current.rx + i.stopBytes)), true), i.callback)
    ensures var t, d1 := d.current, OnStop(d, i);
      if d.stage == Transmitting && t.sent == |t.job.request.tx| && t.job.request.toReceive > 0 then
        Sane(d1) && d1.stage == Receiving && d1.ended == d.ended && d1.started == d.started
      else if t.sent == |t.job.request.tx| && |t.rx + i.stopBytes| == t.job.request.toReceive then
        && d1.stage == Done && RecordOk(d1.current) && |d1.ended| == |d.ended| + 1 && d1.started == d.started && !d1.alarm
        && forall j :: j in d1.queue ==> ValidRequest(j.request)
      else Sane(d1) && d1.stage == d.stage && d1.ended == d.ended && d1.started == d.started
  {
    var t := d.current.(rx := d.current.rx + i.stopBytes);
    FillReadsRecord(t, i.stageRoom);
    FinishSane(d.(current := t), true, i.callback);
  }

  lemma InterruptSane(d: Driver, i: Irq)
    requires Sane(d) && PlausibleIrq(d, i) && CallbackAllowed(d, i) && !i.abort
    ensures Sane(Handle(d, i))
    ensures Surplus(Handle(d, i)) == Surplus(d) + if LateEnd(d, Interrupt(i)) then 1 else 0
  {
    FillsKeepRecord(d, i);
    var d1 := OnRxFull(OnTxEmpty(d, i), i);
    if i.stop {
      StopSane(d1, i);
      var d2 := OnStop(d1, i);
      if d2.stage == Done { NextSane(d2, i.nextRoom); }
    }
  }

  /** When the handler hands over the bus, no alarm is scheduled. */
  lemma ReadyForNext(d: Driver, i: Irq)
    requires Sane(d) && PlausibleIrq(d, i) && CallbackAllowed(d, i) && BeforeNext(d, i).stage == Done
    ensures !BeforeNext(d, i).alarm && forall j :: j in BeforeNext(d, i).queue ==> ValidRequest(j.request)
  {
    if i.abort {
      FinishSane(d, false, i.callback);
    } else {
      FillsKeepRecord(d, i);
      if i.stop { StopSane(OnRxFull(OnTxEmpty(d, i), i), i); }
    }
  }

  lemma StepSane(d: Driver, e: Event)
    requires Sane(d) && Allowed(d, e)
    ensures Sane(Step(d, e)) && Surplus(Step(d, e)) == Surplus(d) + if LateEnd(d, e) then 1 else 0
  {
    match e
    case Enqueue(job) =>
    case StartReserved(room) => StartSane(d, d.reserved, room);
    case Timeout =>
    case Interrupt(i) => if i.abort { AbortSane(d, i); } else { InterruptSane(d, i); }
  }

  /** In every run, ends and transfers under way exceed starts by exactly the number of late ends. */
  lemma {:induction false} SurplusIsLateEnds(es: seq<Event>)
    requires AllowedRun(es)
    ensures Sane(Run(es)) && Surplus(Run(es)) == LateEnds(es)
  {
    if es != [] {
      SurplusIsLateEnds(es[..|es| - 1]);
      StepSane(Run(es[..|es| - 1]), es[|es| - 1]);
    }
  }

  // ---- Runs ----

  lemma StepKeeps(d: Driver, e: Event)
    requires Inv(d) && Allowed(d, e) && !LateEnd(d, e)
    ensures Inv(Step(d, e))
  {
    match e
    case Enqueue(job) => AcceptKeeps(d, job);
    case StartReserved(room) => ReservedKeeps(d, room);
    case Timeout =>
    case Interrupt(irq) => if OnBus(d) { HandleKeeps(d, irq); } else { EndsNothingKeeps(d, irq); }
  }

  lemma ReservedKeeps(d: Driver, room: nat)
    requires Inv(d) && d.stage == Pending
    ensures Inv(Start(d, d.reserved, room))
  {
    assert Outstanding(d) == [d.reserved] + d.queue;
    assert EndedJobs(d.ended) + [] == EndedJobs(d.ended);
    StartKeeps(d, d.reserved, room);
  }

  lemma {:induction false} RunInv(es: seq<Event>)
    requires AllowedRun(es) && LateEnds(es) == 0
    ensures Inv(Run(es))
  {
    if es != [] {
      RunInv(es[..|es| - 1]);
      StepKeeps(Run(es[..|es| - 1]), es[|es| - 1]);
    }
  }

  lemma InvIsSane(d: Driver)
    requires Inv(d)
    ensures Sane(d)
  {
    if OnBus(d) { OnBusIsPartial(d); }
    if d.stage == Pending { assert d.reserved in Outstanding(d); }
    QueueValid(d);
  }

  lemma InvHasNoSurplus(d: Driver)
    requires Inv(d)
    ensures Surplus(d) == 0
  {}

  /**
   * After every run of enqueues, timeouts and interrupts, the last at any time: the books are in
   * order if and only if no interrupt has ended a transfer when none was on the bus. That is,
   * the accepted requests are, in order, those that ended, the one that owns the bus and those
   * that wait; a flag is set exactly while its request is outstanding; an idle driver has an
   * empty queue; no timeout alarm outlives its transfer.
   */
  lemma RunKeeps(es: seq<Event>)
    requires AllowedRun(es)
    ensures Inv(Run(es)) <==> LateEnds(es) == 0
  {
    SurplusIsLateEnds(es);
    if LateEnds(es) == 0 { RunInv(es); }
    if Inv(Run(es)) { InvHasNoSurplus(Run(es)); }
  }

  /** One late interrupt: it leaves the books in order if and only if it does not end a transfer again. */
  lemma LateInterrupt(d: Driver, i: Irq)
    requires Inv(d) && !OnBus(d) && PlausibleIrq(d, i) && CallbackAllowed(d, i)
    ensures Inv(Handle(d, i)) <==> !EndsAgain(d, i)
  {
    if EndsAgain(d, i) {
      InvIsSane(d);
      InvHasNoSurplus(d);
      StepSane(d, Interrupt(i));
      if Inv(Handle(d, i)) { InvHasNoSurplus(Handle(d, i)); }
    } else {
      EndsNothingKeeps(d, i);
    }
  }

  /** An idle driver has ended every request it accepted, in the order of acceptance; completed ones are whole, failed ones partial. */
  lemma IdleHasEndedAll(es: seq<Event>)
    requires AllowedRun(es) && LateEnds(es) == 0 && Run(es).stage == Idle
    ensures EndedJobs(Run(es).ended) == Run(es).accepted == Run(es).started
    ensures Run(es).inProgress == {} && !Run(es).alarm
    ensures forall e :: e in Run(es).ended ==> Partial(e.transfer) && (e.completed ==> Whole(e.transfer))
  {
    RunKeeps(es);
    var d := Run(es);
    assert Outstanding(d) == [];
    if f :| f in d.inProgress { assert false; }
  }

  // The race that ends a transfer twice.

  /** An interrupt with nothing but a stop condition. */
  function StopOnly(): Irq {
    Irq(false, false, 0, false, [], 0, true, [], 0, [], 0)
  }

  function AbortOnly(): Irq {
    Irq(true, false, 0, false, [], 0, false, [], 0, [], 0)
  }

  lemma CallbackOfNone(d: Driver, i: Irq)
    requires i.callback == []
    ensures CallbackAllowed(d, i)
  {}

  /** A one-byte write is on the bus, all of it written. */
  ghost predicate OneByteOnBus(d: Driver) {
    && d.stage == Transmitting && d.current == Transfer(OneByte(0), 1, 0, d.current.words, [])
    && d.queue == [] && d.ended == []
  }

  lemma RaceStarts()
    ensures var es := [Enqueue(OneByte(0)), StartReserved(1)];
      AllowedRun(es) && LateEnds(es) == 0 && OneByteOnBus(Run(es)) && Run(es).alarm
  {
    var a, b := Enqueue(OneByte(0)), StartReserved(1);
    RunSnoc([], a);
    RunSnoc([a], b);
    assert [] + [a] == [a] && [a] + [b] == [a, b];
    var t := FillTx(Fresh(OneByte(0)), 1);
    assert t.sent == 1 && t.job == OneByte(0) && t.asked == 0 && t.rx == [];
  }

  lemma RaceCompletes(d: Driver)
    requires OneByteOnBus(d)
    ensures Allowed(d, Interrupt(StopOnly())) && !LateEnd(d, Interrupt(StopOnly()))
    ensures Handle(d, StopOnly()).stage == Idle && Handle(d, StopOnly()).queue == []
    ensures Handle(d, StopOnly()).ended == [End(d.current, true)] && Handle(d, StopOnly()).current == d.current
  {
    CallbackOfNone(d, StopOnly());
    assert d.current.(rx := d.current.rx + []) == d.current;
    assert Finish(d, true, []) == Ended(d, true);
  }

  lemma RaceAborts(d: Driver)
    requires d.stage == Idle && d.queue == [] && d.current.rx == [] && d.current.asked == 0
    ensures Allowed(d, Interrupt(AbortOnly())) && LateEnd(d, Interrupt(AbortOnly()))
    ensures Handle(d, AbortOnly()).ended == d.ended + [End(d.current, false)]
  {
    CallbackOfNone(d, AbortOnly());
    assert Finish(d, false, []) == Ended(d, false);
  }

  /**
   * The timeout asks the hardware for an abort, but the transfer completes before the abort is
   * made: the abort then ends the completed transfer a second time, as failed.
   */
  lemma TimeoutRace()
    ensures var es := [Enqueue(OneByte(0)), StartReserved(1)] + [Timeout] + [Interrupt(StopOnly())];
      && AllowedRun(es) && LateEnds(es) == 0 && Run(es).stage == Idle
      && AllowedRun(es + [Interrupt(AbortOnly())]) && LateEnds(es + [Interrupt(AbortOnly())]) == 1
      && EndedJobs(Run(es + [Interrupt(AbortOnly())]).ended) == [OneByte(0), OneByte(0)]
  {
    var es := [Enqueue(OneByte(0)), StartReserved(1)];
    RaceStarts();
    RunSnoc(es, Timeout);
    es := es + [Timeout];
    RaceCompletes(Run(es));
    RunSnoc(es, Interrupt(StopOnly()));
    es := es + [Interrupt(StopOnly())];
    RaceAborts(Run(es));
    RunSnoc(es, Interrupt(AbortOnly()));
  }

  // Runs that write for a request that has failed.

  const LONG_WRITE := Job(Request(0x3A, [0, 1, 2, 3], 0), 0)
  const LONG_READ := Job(Request(0x3A, [], 3), 0)

  /** A stop condition, with room in the transmit FIFO and these bytes in the receive FIFO. */
  function StopWith(room: nat, bytes: seq<bv8>): Irq {
    Irq(false, true, room, false, [], 0, true, bytes, 0, [], 0)
  }

  lemma FailedRun(job: Job, room: nat)
    requires ValidRequest(job.request)
    ensures var es := [Enqueue(job)] + [StartReserved(room)];
      AllowedRun(es) && LateEnds(es) == 0 && Run(es) == Start(Step(INITIAL, Enqueue(job)), job, room)
  {
    var a, b := Enqueue(job), StartReserved(room);
    RunSnoc([], a);
    assert [] + [a] == [a];
    RunSnoc([a], b);
  }

  lemma AbortEnds(d: Driver)
    requires Inv(d) && OnBus(d) && d.queue == []
    ensures Allowed(d, Interrupt(AbortOnly())) && !LateEnd(d, Interrupt(AbortOnly()))
    ensures Handle(d, AbortOnly()) == Ended(d, false).(stage := Idle)
  {
    if d.stage == Transmitting { assert d.current.asked == 0; }
    CallbackOfNone(d, AbortOnly());
  }

  /** The record of a failed request, and nothing else: the driver is idle and no flag is set. */
  predicate Failed(d: Driver, job: Job) {
    d.stage == Idle && d.inProgress == {} && d.current.job == job && |d.ended| == 1 && !d.ended[0].completed
  }

  lemma FailedRecord(job: Job, room: nat) returns (es: seq<Event>)
    requires ValidRequest(job.request)
    ensures AllowedRun(es) && LateEnds(es) == 0 && Failed(Run(es), job)
    ensures Run(es).current == Start(Step(INITIAL, Enqueue(job)), job, room).current
  {
    es := [Enqueue(job)] + [StartReserved(room)];
    FailedRun(job, room);
    RunKeeps(es);
    var d := Run(es);
    FillTxRecord(Fresh(job), room);
    FillReadsRecord(Fresh(job), room);
    AbortEnds(d);
    RunSnoc(es, Interrupt(AbortOnly()));
    es := es + [Interrupt(AbortOnly())];
    assert {job.flag} - {job.flag} == {};
  }

  lemma TwoOfFour()
    ensures FillTx(Fresh(LONG_WRITE), 2) == Transfer(LONG_WRITE, 2, 0, [Send(0, false), Send(1, false)], [])
  {
    var one := Transfer(LONG_WRITE, 1, 0, [Send(0, false)], []);
    assert FillTx(Fresh(LONG_WRITE), 2) == FillTx(one, 1);
    assert FillTx(one, 1) == FillTx(Transfer(LONG_WRITE, 2, 0, [Send(0, false), Send(1, false)], []), 0);
  }

  lemma ThirdOfFour(t: Transfer)
    requires t == Transfer(LONG_WRITE, 2, 0, [Send(0, false), Send(1, false)], [])
    ensures FillTx(t, 1) == t.(sent := 3, words := t.words + [Send(2, false)])
  {
    assert FillTx(t, 1) == FillTx(t.(sent := 3, words := t.words + [Send(2, false)]), 0);
  }

  /** It happens: the stop that follows an abort makes the handler write on for the request that has failed. */
  lemma StopAfterAbortWrites() returns (es: seq<Event>)
    ensures AllowedRun(es) && LateEnds(es) == 0 && Failed(Run(es), LONG_WRITE)
    ensures var all := es + [Interrupt(StopWith(1, []))];
      && AllowedRun(all) && LateEnds(all) == 0 && Run(all).stage == Idle && Run(all).inProgress == {}
      && Run(all).current.words == Run(es).current.words + [Send(2, false)]
  {
    es := FailedRecord(LONG_WRITE, 2);
    var d := Run(es);
    TwoOfFour();
    ThirdOfFour(d.current);
    CallbackOfNone(d, StopWith(1, []));
    RunSnoc(es, Interrupt(StopWith(1, [])));
  }

  lemma ThreeReads()
    ensures FillReads(Fresh(LONG_READ), 3).asked == 3
  {
    var two := Fresh(LONG_READ).(asked := 2, words := [Read(false), Read(false)]);
    assert FillReads(Fresh(LONG_READ), 3) == FillReads(Fresh(LONG_READ).(asked := 1, words := [Read(false)]), 2);
    assert FillReads(Fresh(LONG_READ).(asked := 1, words := [Read(false)]), 2) == FillReads(two, 1);
    assert FillReads(two, 1).asked == 3;
  }

  /** And so does the drain: a byte goes into the buffer of a read that has failed and whose caller may use it again. */
  lemma StopAfterAbortReceives(b: bv8) returns (es: seq<Event>)
    ensures AllowedRun(es) && LateEnds(es) == 0 && Failed(Run(es), LONG_READ) && Run(es).current.rx == []
    ensures var all := es + [Interrupt(StopWith(0, [b]))];
      && AllowedRun(all) && LateEnds(all) == 0 && Run(all).stage == Idle && Run(all).inProgress == {}
      && Run(all).current.rx == [b]
  {
    es := FailedRecord(LONG_READ, 3);
    var d := Run(es);
    ThreeReads();
    FillReadsRecord(Fresh(LONG_READ), 3);
    assert FillTx(d.current, 0) == d.current;
    CallbackOfNone(d, StopWith(0, [b]));
    RunSnoc(es, Interrupt(StopWith(0, [b])));
  }

  // ---- Can the queue overflow? ----

  lemma {:induction false} FlagCount(jobs: seq<Job>, flags: set<nat>)
    requires FlagsMatch(jobs, flags)
    ensures |flags| == |jobs|
  {
    if jobs == [] {
      if f :| f in flags { assert false; }
    } else {
      assert jobs == [jobs[0]] + jobs[1..];
      DropFlag(jobs[0], jobs[1..], flags);
      FlagCount(jobs[1..], flags - {jobs[0].flag});
      assert |flags| == |flags - {jobs[0].flag}| + 1;
    }
  }

  lemma SubsetCount(a: set<nat>, b: set<nat>)
    requires a <= b
    ensures |a| <= |b|
  {
    assert |b| == |a| + |b - a| by { assert a + (b - a) == b; }
  }

  /** Between interrupts, callers that share at most sixteen flags never find the queue full. */
  lemma SixteenFlagsFit(d: Driver, flags: set<nat>, job: Job)
    requires Inv(d) && MayEnqueue(d, job)
    requires d.inProgress + {job.flag} <= flags && |flags| <= QUEUE_SIZE
    ensures Accept(d, job).faults == d.faults && Accept(d, job).accepted == d.accepted + [job]
  {
    FlagCount(Outstanding(d), d.inProgress);
    SubsetCount(d.inProgress + {job.flag}, flags);
    assert |d.inProgress + {job.flag}| == |d.inProgress| + 1;
  }

  /** A callback runs while its transfer still holds the bus, so its enqueue is refused exactly when fifteen requests wait. */
  lemma CallbackRefused(d: Driver, completed: bool, job: Job)
    requires Inv(d) && OnBus(d)
    ensures Finish(d, completed, [job]).accepted == d.accepted <==> |d.queue| == QUEUE_SIZE - 1
    ensures Finish(d, completed, [job]).faults == d.faults + 1 <==> |d.queue| == QUEUE_SIZE - 1
  {
    assert [job][..0] == [];
    assert AcceptAll(Ended(d, completed), [job]) == Accept(AcceptAll(Ended(d, completed), []), job);
  }

  /** With at most fifteen flags in use even the enqueue of a callback always finds room. */
  lemma FifteenFlagsFitInCallback(d: Driver, flags: set<nat>, completed: bool, job: Job)
    requires Inv(d) && OnBus(d) && MayEnqueue(Ended(d, completed), job)
    requires d.inProgress + {job.flag} <= flags && |flags| <= QUEUE_SIZE - 1
    ensures Finish(d, completed, [job]).accepted == d.accepted + [job]
  {
    FlagCount(Outstanding(d), d.inProgress);
    SubsetCount(d.inProgress, flags);
    assert [job][..0] == [];
    assert AcceptAll(Ended(d, completed), [job]) == Accept(AcceptAll(Ended(d, completed), []), job);
  }

  // Sixteen flags are not enough for callbacks: a run that shows it.

  function OneByte(flag: nat): Job {
    Job(Request(0x3A, [0], 0), flag)
  }

  function FlagsBelow(n: nat): (flags: set<nat>)
    ensures forall f: nat :: f in flags <==> f < n
  {
    if n == 0 then {} else FlagsBelow(n - 1) + {n - 1}
  }

  ghost predicate Crowded(d: Driver, n: nat) {
    && d.stage == Transmitting && d.current.job == OneByte(0) && d.current.sent == 1 && d.faults == 0
    && |d.queue| == n - 1 && d.inProgress == FlagsBelow(n)
  }

  lemma RunSnoc(es: seq<Event>, e: Event)
    ensures Run(es + [e]) == Step(Run(es), e)
    ensures AllowedRun(es) && Allowed(Run(es), e) ==> AllowedRun(es + [e])
    ensures LateEnds(es + [e]) == LateEnds(es) + if LateEnd(Run(es), e) then 1 else 0
  {
    assert (es + [e])[..|es|] == es;
  }

  /** The first caller's write starts at once. */
  lemma FirstOfCrowd() returns (es: seq<Event>)
    ensures AllowedRun(es) && LateEnds(es) == 0 && Crowded(Run(es), 1)
  {
    var first, second := Enqueue(OneByte(0)), StartReserved(1);
    RunSnoc([], first);
    RunSnoc([first], second);
    assert [] + [first] == [first];
    es := [first] + [second];
    var d := Start(Step(INITIAL, first), OneByte(0), 1);
    assert FillTx(Fresh(OneByte(0)), 1).sent == 1;
    assert d.inProgress == {0} == FlagsBelow(1);
  }

  lemma CrowdGrows(d: Driver, n: nat)
    requires 1 <= n < QUEUE_SIZE && Crowded(d, n)
    ensures Allowed(d, Enqueue(OneByte(n))) && Crowded(Accept(d, OneByte(n)), n + 1)
  {
    assert ValidRequest(OneByte(n).request);
    assert FlagsBelow(n + 1) == FlagsBelow(n) + {n};
  }

  lemma CrowdOneMore(es: seq<Event>, n: nat)
    requires AllowedRun(es) && LateEnds(es) == 0 && 1 <= n < QUEUE_SIZE && Crowded(Run(es), n)
    ensures AllowedRun(es + [Enqueue(OneByte(n))]) && LateEnds(es + [Enqueue(OneByte(n))]) == 0 && Crowded(Run(es + [Enqueue(OneByte(n))]), n + 1)
  {
    CrowdGrows(Run(es), n);
    RunSnoc(es, Enqueue(OneByte(n)));
  }

  lemma {:induction false} CrowdWaits(n: nat) returns (es: seq<Event>)
    requires 1 <= n <= QUEUE_SIZE
    ensures AllowedRun(es) && LateEnds(es) == 0 && Crowded(Run(es), n)
  {
    if n == 1 {
      es := FirstOfCrowd();
    } else {
      var earlier := CrowdWaits(n - 1);
      CrowdOneMore(earlier, n - 1);
      es := earlier + [Enqueue(OneByte(n - 1))];
    }
  }

  lemma MayEnqueueOne(d: Driver, job: Job)
    requires MayEnqueue(d, job)
    ensures MayEnqueueAll(d, [job])
  {
    assert [job][..0] == [];
    assert MayEnqueueAll(d, []);
  }

  lemma NextFaults(d: Driver, room: nat)
    ensures Next(d, room).faults == d.faults
  {}

  /** The stop condition of a one-byte write, whose callback enqueues the same request again. */
  predicate Completion(i: Irq) {
    && !i.abort && !i.txEmpty && !i.rxFull && i.stop && i.stopBytes == [] && i.callback == [OneByte(0)]
  }

  /** With sixteen flags in use, each only while it is clear, an enqueue from a callback is refused. */
  lemma CrowdedCallback(d: Driver, i: Irq)
    requires Inv(d) && Crowded(d, QUEUE_SIZE) && Completion(i)
    ensures Allowed(d, Interrupt(i)) && Handle(d, i).faults == 1
  {
    assert d.current.rx == [];
    StopCompletes(d, i);
    CallbackRefused(d, true, OneByte(0));
    MayEnqueueOne(Ended(d, true), OneByte(0));
    NextFaults(Finish(d, true, i.callback), i.nextRoom);
  }

  /** So there is a run in which all callers keep to the rules, with sixteen flags, and a request is refused. */
  lemma SixteenFlagsOverflowInCallback(i: Irq)
    requires Completion(i)
    ensures exists es :: AllowedRun(es + [Interrupt(i)]) && Run(es).inProgress == FlagsBelow(QUEUE_SIZE)
                         && Run(es + [Interrupt(i)]).faults == 1
  {
    var es := CrowdWaits(QUEUE_SIZE);
    RunKeeps(es);
    CrowdedCallback(Run(es), i);
    RunSnoc(es, Interrupt(i));
  }

  lemma StopCompletes(d: Driver, i: Irq)
    requires d.stage == Transmitting && d.current.sent == |d.current.job.request.tx|
    requires d.current.job.request.toReceive == 0 && d.current.rx == []
    requires !i.abort && !i.txEmpty && !i.rxFull && i.stop && i.stopBytes == []
    ensures Handle(d, i) == Next(Finish(d, true, i.callback), i.nextRoom)
    ensures CallbackAllowed(d, i) == MayEnqueueAll(Ended(d, true), i.callback)
  {
    assert d.current.(rx := d.current.rx + i.stopBytes) == d.current;
    assert d.(current := d.current) == d;
  }
}
