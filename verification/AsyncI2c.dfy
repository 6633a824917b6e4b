/**
 * The I2C driver of the coprocessor: a ring of sixteen pending requests and one active
 * transfer, updated in place by enqueues, a timeout alarm and an interrupt handler.
 */
module AsyncI2c {
  import opened AsyncI2cSpec
  import opened AsyncI2cRecord
  import opened RingBuffer

  /** An entry of the pending ring: the request, its flag, and the caller's receive buffer. */
  datatype PendingRequest = PendingRequest(job: Job, rxBuffer: array<bv8>)

  function Jobs(ps: seq<PendingRequest>): (js: seq<Job>)
    ensures |js| == |ps|
  {
    seq(|ps|, i requires 0 <= i < |ps| => ps[i].job)
  }

  lemma PopJobs(p: PendingRequest, rest: seq<PendingRequest>)
    ensures Jobs([p] + rest) == [p.job] + Jobs(rest) && ([p.job] + Jobs(rest))[1..] == Jobs(rest)
  {}

  /** A buffer into which these bytes have been written from a position on, and nothing else. */
  function Written(buffer: seq<bv8>, at: nat, bytes: seq<bv8>): (r: seq<bv8>)
    requires at + |bytes| <= |buffer|
    ensures |r| == |buffer| && (bytes == [] ==> r == buffer)
  {
    buffer[..at] + bytes + buffer[at + |bytes|..]
  }

  lemma WrittenTwice(buffer: seq<bv8>, at: nat, a: seq<bv8>, b: seq<bv8>)
    requires at + |a| + |b| <= |buffer|
    ensures Written(Written(buffer, at, a), at + |a|, b) == Written(buffer, at, a + b)
    ensures Written(buffer, at, a + []) == Written(buffer, at, a)
  {}

  /** The record of the transfer that owns the bus. */
  datatype ActiveTransfer = ActiveTransfer(
    stage: Stage,
    job: Job,
    rxBuffer: array<bv8>,
    bytesSent: nat,
    bytesReceived: nat,
    receiveCommandsQueued: nat,
    timeoutAlarm: nat,
    alarmActive: bool)

  /** What callers may want to know about the past. */
  datatype Log = Log(accepted: seq<Job>, started: seq<Job>, ended: seq<End>)

  class AsyncI2cDriver {
    var active: ActiveTransfer
    const pending: array<PendingRequest>
    var nextEntry: nat
    var nextSpace: nat
    var inProgress: set<nat>        // the callers' flags that are set
    var alarms: set<nat>            // what is scheduled in the timer pool
    var allocatedAlarms: nat
    var words: seq<Word>            // written to the controller's command register for the active transfer
    var faults: nat

    ghost var queue: seq<Job>       // the jobs in the ring, oldest first
    ghost var reserved: Job         // the request for which an idle bus has been reserved
    ghost var rx: seq<bv8>          // received for the active transfer
    ghost var log: Log

    ghost predicate RingValid()
      reads this`nextEntry, this`nextSpace, this`queue, pending
    {
      && pending.Length == QUEUE_SIZE && nextEntry < QUEUE_SIZE && nextSpace < QUEUE_SIZE
      && queue == Jobs(Between(pending[..], nextEntry, nextSpace))
      && AllSuit(Between(pending[..], nextEntry, nextSpace))
    }

    ghost predicate AllSuit(entries: seq<PendingRequest>) {
      forall p :: p in entries ==> Suits(p.rxBuffer, p.job)
    }

    lemma FirstSuits(p: PendingRequest, rest: seq<PendingRequest>)
      requires AllSuit([p] + rest)
      ensures Suits(p.rxBuffer, p.job) && AllSuit(rest)
    {
      assert p in [p] + rest;
      forall q | q in rest ensures Suits(q.rxBuffer, q.job) { assert q in [p] + rest; }
    }

    /** The caller's buffer is long enough, and it is not the driver's own array. */
    ghost predicate Suits(buffer: array<bv8>, job: Job) {
      buffer.Length >= job.request.toReceive && buffer as object != pending
    }

    ghost predicate TimerValid()
      reads this`active, this`alarms, this`allocatedAlarms
    {
      && alarms == (if active.alarmActive then {active.timeoutAlarm} else {})
      && active.timeoutAlarm <= allocatedAlarms
    }

    ghost predicate BufferValid()
      reads this`active, this`rx, active.rxBuffer
    {
      && Suits(active.rxBuffer, active.job)
      && active.bytesReceived == |rx| <= active.rxBuffer.Length
      && active.rxBuffer[..active.bytesReceived] == rx
    }

    ghost predicate Valid()
      reads this, pending, active.rxBuffer
    {
      RingValid() && TimerValid() && BufferValid()
    }

    ghost function Current(): Transfer
      reads this`active, this`words, this`rx
    {
      Transfer(active.job, active.bytesSent, active.receiveCommandsQueued, words, rx)
    }

    ghost function Abs(): Driver
      reads this
    {
      Driver(active.stage, Current(), reserved, queue, inProgress, active.alarmActive,
             log.accepted, log.started, log.ended, faults)
    }

    constructor ()
      ensures Valid() && Abs() == INITIAL
    {
      var none := new bv8[0];
      active := ActiveTransfer(Idle, NO_JOB, none, 0, 0, 0, 0, false);
      pending := new PendingRequest[QUEUE_SIZE](_ => PendingRequest(NO_JOB, none));
      nextEntry, nextSpace := 0, 0;
      inProgress, alarms, allocatedAlarms, words, faults := {}, {}, 0, [], 0;
      queue, reserved, rx, log := [], NO_JOB, [], Log([], [], []);
    }

    // ---- Filling and draining the FIFOs ----

    method FillTransmit(room: nat)
      modifies this`active, this`words
      ensures active == old(active).(bytesSent := active.bytesSent)
      ensures Current() == FillTx(old(Current()), room)
    {
      var left := room;
      while left > 0 && active.bytesSent < |active.job.request.tx|
        invariant active == old(active).(bytesSent := active.bytesSent)
        invariant FillTx(Current(), left) == FillTx(old(Current()), room)
      {
        var last := active.bytesSent + 1 == |active.job.request.tx|;
        words := words + [Send(active.job.request.tx[active.bytesSent], last)];
        active := active.(bytesSent := active.bytesSent + 1);
        left := left - 1;
      }
    }

    method FillReceive(room: nat)
      modifies this`active, this`words
      ensures active == old(active).(receiveCommandsQueued := active.receiveCommandsQueued)
      ensures Current() == FillReads(old(Current()), room)
    {
      var left := room;
      while left > 0 && active.receiveCommandsQueued < active.job.request.toReceive
        invariant active == old(active).(receiveCommandsQueued := active.receiveCommandsQueued)
        invariant FillReads(Current(), left) == FillReads(old(Current()), room)
      {
        var last := active.receiveCommandsQueued + 1 == active.job.request.toReceive;
        words := words + [Read(last)];
        active := active.(receiveCommandsQueued := active.receiveCommandsQueued + 1);
        left := left - 1;
      }
    }

    /** One byte goes to the next position of the caller's buffer. */
    method ReceiveByte(b: bv8)
      requires BufferValid()
      requires |rx| < active.job.request.toReceive
      modifies this`active, this`rx, active.rxBuffer
      ensures BufferValid() && rx == old(rx) + [b]
      ensures active == old(active).(bytesReceived := old(active).bytesReceived + 1)
      ensures forall k :: active.bytesReceived <= k < active.rxBuffer.Length ==> active.rxBuffer[k] == old(active.rxBuffer[k])
    {
      active.rxBuffer[active.bytesReceived] := b;
      rx := rx + [b];
      active := active.(bytesReceived := active.bytesReceived + 1);
    }

    /** Moves received bytes to consecutive positions of the caller's buffer and writes nowhere else. */
    method DrainReceive(bytes: seq<bv8>)
      requires BufferValid()
      requires |rx| + |bytes| <= active.job.request.toReceive
      modifies this`active, this`rx, active.rxBuffer
      ensures BufferValid() && rx == old(rx) + bytes
      ensures active == old(active).(bytesReceived := active.bytesReceived)
      ensures active.rxBuffer[..] == Written(old(active.rxBuffer[..]), |old(rx)|, bytes)
    {
      ghost var was := active.rxBuffer[..];
      var k := 0;
      while k < |bytes|
        invariant k <= |bytes| && rx == old(rx) + bytes[..k] && BufferValid()
        invariant active == old(active).(bytesReceived := active.bytesReceived)
        invariant forall n :: active.bytesReceived <= n < active.rxBuffer.Length ==> active.rxBuffer[n] == old(active.rxBuffer[n])
      {
        ReceiveByte(bytes[k]);
        k := k + 1;
      }
      AppendedAt(active.rxBuffer[..], was, old(rx), bytes);
    }

    lemma AppendedAt(buffer: seq<bv8>, was: seq<bv8>, before: seq<bv8>, bytes: seq<bv8>)
      requires |buffer| == |was| && |before| + |bytes| <= |was|
      requires was[..|before|] == before && buffer[..|before| + |bytes|] == before + bytes
      requires forall n :: |before| + |bytes| <= n < |was| ==> buffer[n] == was[n]
      ensures buffer == Written(was, |before|, bytes)
    {
      forall n | 0 <= n < |was| ensures buffer[n] == Written(was, |before|, bytes)[n] {
        if n < |before| + |bytes| { assert buffer[n] == buffer[..|before| + |bytes|][n]; }
      }
    }

    // ---- Starting and queuing ----

    method ScheduleTimeout()
      requires TimerValid() && !active.alarmActive
      modifies this`active, this`alarms, this`allocatedAlarms
      ensures TimerValid() && active == old(active).(timeoutAlarm := active.timeoutAlarm, alarmActive := true)
    {
      allocatedAlarms := allocatedAlarms + 1;
      alarms := alarms + {allocatedAlarms};
      active := active.(timeoutAlarm := allocatedAlarms, alarmActive := true);
    }

    /** Takes over the bus for a request; the caller owns the bus. */
    method StartRequest(next: Job, buffer: array<bv8>, room: nat)
      requires TimerValid() && !active.alarmActive && active.stage in {Pending, Done}
      requires ValidRequest(next.request) && Suits(buffer, next)
      modifies this`active, this`alarms, this`allocatedAlarms, this`words, this`rx, this`log
      ensures TimerValid() && BufferValid() && Abs() == Start(old(Abs()), next, room)
    {
      active := active.(job := next, rxBuffer := buffer, bytesReceived := 0, receiveCommandsQueued := 0, bytesSent := 0);
      words, rx := [], [];
      log := log.(started := log.started + [next]);
      ScheduleTimeout();
      if next.request.tx != [] {
        active := active.(stage := Transmitting);
        FillTransmit(room);
      } else {
        active := active.(stage := Receiving);
        FillReceive(room);
      }
    }

    /** The critical section of an enqueue; `immediate` says that the bus is now reserved for the request. */
    method AcceptRequest(next: Job, buffer: array<bv8>) returns (immediate: bool)
      requires RingValid() && BufferValid() && Suits(buffer, next)
      modifies this`active, this`inProgress, this`nextSpace, this`queue, this`faults, this`log, this`reserved, pending
      ensures RingValid() && BufferValid() && Abs() == Accept(old(Abs()), next)
      ensures immediate <==> old(active.stage) == Idle && active.stage == Pending
      ensures active == old(active).(stage := active.stage)
    {
      var full := CheckFull();
      immediate := !full && active.stage == Idle;
      if full {
        faults := faults + 1;
      } else {
        inProgress := inProgress + {next.flag};
        log := log.(accepted := log.accepted + [next]);
        if immediate {
          active := active.(stage := Pending);
          reserved := next;
        } else {
          PushEntry(PendingRequest(next, buffer));
        }
      }
    }

    method CheckFull() returns (full: bool)
      requires RingValid()
      ensures full <==> |queue| >= QUEUE_SIZE - 1
    {
      Full(pending[..], nextEntry, nextSpace);
      full := (nextSpace + 1) % QUEUE_SIZE == nextEntry;
    }

    /** Puts an entry into the ring, which is not full. */
    method PushEntry(p: PendingRequest)
      requires RingValid() && BufferValid() && |queue| < QUEUE_SIZE - 1 && Suits(p.rxBuffer, p.job)
      modifies this`nextSpace, this`queue, pending
      ensures RingValid() && BufferValid() && queue == old(queue) + [p.job]
    {
      Push(pending[..], nextEntry, nextSpace, p);
      pending[nextSpace] := p;
      nextSpace := (nextSpace + 1) % QUEUE_SIZE;
      queue := queue + [p.job];
    }

    method PopEntry() returns (p: PendingRequest)
      requires RingValid() && nextEntry != nextSpace
      modifies this`nextEntry, this`queue
      ensures RingValid() && Suits(p.rxBuffer, p.job) && old(queue) == [p.job] + queue
    {
      ghost var ring, rest := pending[..], Between(pending[..], (nextEntry + 1) % QUEUE_SIZE, nextSpace);
      Pop(ring, nextEntry, nextSpace);
      p := pending[nextEntry];
      PopJobs(p, rest);
      FirstSuits(p, rest);
      nextEntry := (nextEntry + 1) % QUEUE_SIZE;
      queue := queue[1..];
      assert Between(pending[..], nextEntry, nextSpace) == rest;
    }

    /** An enqueue that nothing interrupts. */
    method Enqueue(next: Job, buffer: array<bv8>, room: nat)
      requires Valid() && Inv(Abs()) && MayEnqueue(Abs(), next) && Suits(buffer, next)
      modifies this, pending
      ensures Valid()
      ensures var d := Accept(old(Abs()), next);
        Abs() == if old(active.stage) == Idle then Start(d, next, room) else d
    {
      var immediate := AcceptRequest(next, buffer);
      if immediate {
        StartRequest(next, buffer, room);
      }
    }

    method CancelTimeout()
      requires TimerValid()
      modifies this`active, this`alarms
      ensures TimerValid() && active == old(active).(alarmActive := false)
    {
      if active.alarmActive {
        alarms := alarms - {active.timeoutAlarm};
        active := active.(alarmActive := false);
      }
    }

    /** The timeout alarm fires: the abort it requests arrives later, as an interrupt. */
    method TimeoutFires()
      requires Valid() && active.alarmActive
      modifies this`active, this`alarms
      ensures Valid() && Abs() == Step(old(Abs()), Timeout)
    {
      alarms := alarms - {active.timeoutAlarm};
      active := active.(alarmActive := false);
    }

    // ---- The interrupt handler ----

    /** The enqueues of a callback, with the receive buffers they name. */
    method RunCallback(jobs: seq<Job>, buffers: seq<array<bv8>>)
      requires RingValid() && BufferValid() && active.stage == Done
      requires |buffers| == |jobs| && forall k :: 0 <= k < |jobs| ==> Suits(buffers[k], jobs[k])
      modifies this`active, this`inProgress, this`nextSpace, this`queue, this`faults, this`log, this`reserved, pending
      ensures RingValid() && BufferValid() && active == old(active) && Abs() == AcceptAll(old(Abs()), jobs)
    {
      var k := 0;
      while k < |jobs|
        invariant k <= |jobs| && RingValid() && BufferValid() && active == old(active)
        invariant Abs() == AcceptAll(old(Abs()), jobs[..k])
      {
        assert jobs[..k + 1][..k] == jobs[..k];
        var immediate := AcceptRequest(jobs[k], buffers[k]);
        k := k + 1;
      }
      assert jobs[..k] == jobs;
    }

    /** Ends the active transfer: cancels its alarm, clears its flag, runs its callback. */
    method FinishTransfer(completed: bool, jobs: seq<Job>, buffers: seq<array<bv8>>)
      requires Valid()
      requires |buffers| == |jobs| && forall k :: 0 <= k < |jobs| ==> Suits(buffers[k], jobs[k])
      modifies this`active, this`alarms, this`inProgress, this`nextSpace, this`queue, this`faults,
               this`log, this`reserved, pending
      ensures Valid() && active == old(active).(stage := Done, alarmActive := false)
      ensures Abs() == Finish(old(Abs()), completed, jobs)
    {
      EndTransfer(completed);
      RunCallback(jobs, buffers);
    }

    method EndTransfer(completed: bool)
      requires TimerValid() && BufferValid()
      modifies this`active, this`alarms, this`inProgress, this`log
      ensures TimerValid() && BufferValid() && active == old(active).(stage := Done, alarmActive := false)
      ensures Abs() == Ended(old(Abs()), completed)
    {
      CancelTimeout();
      active := active.(stage := Done);
      log := log.(ended := log.ended + [End(Current(), completed)]);
      inProgress := inProgress - {active.job.flag};
    }

    /** Hands the bus to the next waiting request or lets it go idle. */
    method NextTransfer(room: nat)
      requires Valid()
      requires active.stage == Done ==> !active.alarmActive && forall j :: j in queue ==> ValidRequest(j.request)
      modifies this`active, this`nextEntry, this`queue, this`alarms, this`allocatedAlarms, this`words, this`rx, this`log
      ensures Valid() && Abs() == Next(old(Abs()), room)
    {
      if active.stage == Done {
        if nextEntry != nextSpace {
          var next := PopEntry();
          StartRequest(next.job, next.rxBuffer, room);
        } else {
          active := active.(stage := Idle);
        }
      }
    }

    method HandleTxEmpty(i: Irq)
      requires Valid() && !i.abort
      modifies this`active, this`words
      ensures Valid() && Abs() == OnTxEmpty(old(Abs()), i) && active == old(active).(bytesSent := active.bytesSent)
    {
      if i.txEmpty { FillTransmit(i.txRoom); }
    }

    method HandleRxFull(i: Irq)
      requires Valid() && !i.abort
      requires i.rxFull ==> |rx| + |i.rxBytes| <= active.job.request.toReceive
      modifies this`active, this`words, this`rx, active.rxBuffer
      ensures Valid() && Abs() == OnRxFull(old(Abs()), i)
      ensures active.stage == old(active.stage) && active.job == old(active.job) && active.rxBuffer == old(active.rxBuffer)
      ensures rx == old(rx) + if i.rxFull then i.rxBytes else []
      ensures active.rxBuffer[..] == Written(old(active.rxBuffer[..]), |old(rx)|, if i.rxFull then i.rxBytes else [])
    {
      if i.rxFull {
        DrainReceive(i.rxBytes);
        FillReceive(i.readRoom);
      }
    }

    method HandleFills(i: Irq)
      requires Valid() && !i.abort
      requires i.rxFull ==> |rx| + |i.rxBytes| <= active.job.request.toReceive
      modifies this`active, this`words, this`rx, active.rxBuffer
      ensures Valid() && Abs() == OnRxFull(OnTxEmpty(old(Abs()), i), i)
      ensures active.rxBuffer == old(active.rxBuffer) && active.job == old(active.job)
      ensures rx == old(rx) + if i.rxFull then i.rxBytes else []
      ensures active.rxBuffer[..] == Written(old(active.rxBuffer[..]), |old(rx)|, if i.rxFull then i.rxBytes else [])
    {
      HandleTxEmpty(i);
      HandleRxFull(i);
    }

    /** A stop condition: drains the receive FIFO, then starts the receive stage, completes the transfer, or is ignored. */
    method HandleStop(i: Irq, buffers: seq<array<bv8>>)
      requires Valid() && i.stop
      requires |rx| + |i.stopBytes| <= active.job.request.toReceive
      requires |buffers| == |i.callback| && forall k :: 0 <= k < |buffers| ==> Suits(buffers[k], i.callback[k])
      modifies this`active, this`words, this`rx, this`alarms, this`inProgress, this`nextSpace, this`queue, this`faults,
               this`log, this`reserved, pending, active.rxBuffer
      ensures Valid() && Abs() == OnStop(old(Abs()), i) && active.rxBuffer == old(active.rxBuffer)
      ensures active.rxBuffer[..] == Written(old(active.rxBuffer[..]), |old(rx)|, i.stopBytes)
    {
      DrainReceive(i.stopBytes);
      var request := active.job.request;
      if i.abort {
      } else if active.stage == Transmitting && active.bytesSent == |request.tx| && request.toReceive > 0 {
        active := active.(stage := Receiving);
        FillReceive(i.stageRoom);
      } else if active.bytesSent == |request.tx| && active.bytesReceived == request.toReceive {
        FinishTransfer(true, i.callback, buffers);
      }
    }

    /** What the handler does before it looks for a stop condition. */
    method HandleBeforeStop(i: Irq, buffers: seq<array<bv8>>)
      requires Valid() && |rx| + |First(i)| <= active.job.request.toReceive
      requires |buffers| == |i.callback| && forall k :: 0 <= k < |buffers| ==> Suits(buffers[k], i.callback[k])
      modifies this`active, this`words, this`rx, this`alarms, this`inProgress, this`nextSpace, this`queue, this`faults,
               this`log, this`reserved, pending, active.rxBuffer
      ensures Valid() && Abs() == OnRxFull(OnTxEmpty(OnAbort(old(Abs()), i), i), i)
      ensures active.rxBuffer == old(active.rxBuffer) && active.job == old(active.job) && rx == old(rx) + First(i)
      ensures active.rxBuffer[..] == Written(old(active.rxBuffer[..]), |old(rx)|, First(i))
    {
      if i.abort {
        FinishTransfer(false, i.callback, buffers);
      } else {
        HandleFills(i);
      }
    }

    /** The interrupt handler up to the point where it looks at the queue. */
    method HandleConditions(i: Irq, buffers: seq<array<bv8>>)
      requires Valid() && |rx| + |Got(i)| <= active.job.request.toReceive
      requires |buffers| == |i.callback| && forall k :: 0 <= k < |buffers| ==> Suits(buffers[k], i.callback[k])
      modifies this`active, this`words, this`rx, this`alarms, this`inProgress, this`nextSpace, this`queue, this`faults,
               this`log, this`reserved, pending, active.rxBuffer
      ensures Valid() && Abs() == BeforeNext(old(Abs()), i) && active.rxBuffer == old(active.rxBuffer)
      ensures active.rxBuffer[..] == Written(old(active.rxBuffer[..]), |old(rx)|, Got(i))
    {
      WrittenTwice(active.rxBuffer[..], |rx|, First(i), if i.stop then i.stopBytes else []);
      HandleBeforeStop(i, buffers);
      if i.stop { HandleStop(i, buffers); }
    }

    /**
     * The interrupt handler. The bytes that it takes out of the receive FIFO go, in order, behind those already in
     * the caller's buffer, and the rest of that buffer is left alone.
     */
    method HandleIrq(i: Irq, buffers: seq<array<bv8>>)
      requires Valid() && Sane(Abs()) && Allowed(Abs(), Interrupt(i))
      requires |buffers| == |i.callback| && forall k :: 0 <= k < |buffers| ==> Suits(buffers[k], i.callback[k])
      modifies this, pending, active.rxBuffer
      ensures Valid() && Abs() == Handle(old(Abs()), i)
      ensures |old(rx)| + |Got(i)| <= old(active.rxBuffer).Length
      ensures old(active.rxBuffer)[..] == Written(old(active.rxBuffer[..]), |old(rx)|, Got(i))
    {
      if BeforeNext(Abs(), i).stage == Done { ReadyForNext(Abs(), i); }
      BytesFit(Abs(), i);
      if !i.abort { FillsExactly(Abs(), i); }
      HandleConditions(i, buffers);
      NextTransfer(i.nextRoom);
    }
  }
}
