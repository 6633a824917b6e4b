/**
 * The actuator board's I2C target driver, updated in place by its interrupt handler and by
 * the main loop; the two calls of the main loop are cut at their critical sections.
 */
module I2cTarget {
  import opened I2cTargetSpec
  import P = ActuatorProtocol
  import Crc8

  class TargetDriver {
    var phase: Phase
    const receivedCommand: array<bv8>
    var bytesReceived: nat
    var recvSize: nat
    const response: array<bv8>      // the main loop's response buffer
    var responseSize: nat
    var bytesSent: nat
    var txEmptyMask: bool
    var written: seq<Out>           // what went to the transmit queue

    ghost predicate ReceiveValid()
      reads this`phase, this`bytesReceived, this`recvSize
    {
      && receivedCommand.Length == P.MAX_CMD_LENGTH && bytesReceived <= P.MAX_CMD_LENGTH
      && (phase == Receiving ==> 1 <= bytesReceived <= recvSize <= P.MAX_CMD_LENGTH)
    }

    ghost predicate Valid()
      reads this
    {
      && ReceiveValid()
      && response.Length == RESPONSE_CAPACITY && response != receivedCommand
      && bytesSent <= responseSize <= RESPONSE_CAPACITY
    }

    ghost function Abs(): (t: Target)
      reads this, receivedCommand, response
      requires Valid()
      ensures Sized(t)
    {
      Target(phase, receivedCommand[..bytesReceived], recvSize, response[..], responseSize, bytesSent, txEmptyMask, written)
    }

    constructor ()
      ensures Valid() && Abs() == Start(response[..]).t
    {
      phase, bytesReceived, recvSize := Idle, 0, 0;
      responseSize, bytesSent, txEmptyMask, written := 0, 0, false, [];
      receivedCommand := new bv8[P.MAX_CMD_LENGTH];
      response := new bv8[RESPONSE_CAPACITY];
    }

    // ---- The interrupt handler ----

    /** Writes response bytes while the queue has room, then sets or clears the interrupt mask. */
    method FillTransmitQueue(room: nat)
      requires Valid()
      modifies this`bytesSent, this`written, this`txEmptyMask
      ensures Valid() && Abs() == Fill(old(Abs()), room)
    {
      var left := room;
      ghost var sent, n := bytesSent, Min(room, responseSize - bytesSent);
      while left > 0 && bytesSent < responseSize
        invariant bytesSent <= responseSize && 0 <= left <= room && bytesSent - sent == room - left
        invariant written == old(written) + AsData(response[sent..bytesSent])
      {
        assert response[sent..bytesSent + 1] == response[sent..bytesSent] + [response[bytesSent]];
        written := written + [Data(response[bytesSent])];
        bytesSent := bytesSent + 1;
        left := left - 1;
      }
      SubarrayOf(response, sent, bytesSent);
      txEmptyMask := bytesSent != responseSize;
    }

    /** A restart finds the queue starved if the bus is active and the queue is empty; only then it writes a filler. */
    method RestartHardware(starved: bool)
      modifies this`written
      ensures written == old(written) + Fillers(if starved then 1 else 0)
    {
      if starved { written := written + [Filler]; }
    }

    method Abort(starved: bool)
      modifies this`phase, this`written
      ensures phase == Idle && written == old(written) + Fillers(if starved then 1 else 0)
    {
      phase := Idle;
      RestartHardware(starved);
    }

    method OnRxDone()
      requires Valid()
      modifies this`phase, this`txEmptyMask
      ensures Valid() && Abs() == RxDone(old(Abs()))
      ensures old(phase) == Responding ==> phase == Idle && !txEmptyMask && written == old(written)
      ensures old(phase) != Responding ==> Abs() == old(Abs())
    {
      if phase == Responding {
        phase := Idle;
        txEmptyMask := false;
      }
    }

    method OnTxEmpty(room: nat)
      requires Valid()
      modifies this`bytesSent, this`written, this`txEmptyMask
      ensures Valid() && Abs() == TxEmpty(old(Abs()), room)
    {
      if txEmptyMask {
        if phase != Responding {
          txEmptyMask := false;
        } else {
          FillTransmitQueue(room);
        }
      }
    }

    method OnRdReq(room: nat)
      requires Valid()
      modifies this`phase, this`bytesSent, this`written, this`txEmptyMask
      ensures Valid() && Abs() == RdReq(old(Abs()), room)
    {
      if phase == CmdProcessing || phase == CmdReceived {
        phase := WaitingForResponse;
      } else if phase == Responding {
        if bytesSent < responseSize {
          FillTransmitQueue(room);
        } else {
          written := written + [Filler];
        }
      } else {
        written := written + [Filler];
      }
    }

    ghost function Parser(): P.Parser
      reads this`phase, this`bytesReceived, this`recvSize, receivedCommand
      requires ReceiveValid()
    {
      P.Parser(if phase == Receiving then P.Receiving else P.Idle, receivedCommand[..bytesReceived], recvSize)
    }

    /** Takes a word out of the receive queue; tells whether it was dropped, and whether its command id is unknown. */
    method ReadWord(w: P.RxWord, starved: bool) returns (dropped: bool, unknown: bool)
      requires ReceiveValid() && (phase == Idle || phase == Receiving)
      modifies this`phase, this`bytesReceived, this`recvSize, this`written, receivedCommand
      ensures ReceiveValid() && (phase == Idle || phase == Receiving)
      ensures Parser() == P.Feed(old(Parser()), w)
      ensures dropped == P.Drops(old(Parser()), w) && unknown == P.Unknown(old(Parser()), w)
      ensures written == old(written) + Fillers(if unknown && starved then 1 else 0)
    {
      unknown := false;
      var canProcess := true;
      if w.first {
        bytesReceived := 0;
        recvSize := P.BASE_CMD_LENGTH;
        phase := Receiving;
      } else if phase == Idle {
        canProcess := false;
      } else {
        canProcess := bytesReceived < recvSize;
      }
      dropped := !canProcess;
      if canProcess {
        if bytesReceived == 1 {
          recvSize := P.CmdSize(w.data);
        }
        if recvSize == 0 {
          Abort(starved);
          unknown := true;
        } else {
          receivedCommand[bytesReceived] := w.data;
          bytesReceived := bytesReceived + 1;
        }
      }
    }

    /** Empties the receive queue; `starved` tells what each restart finds. */
    method ReadGroup(group: seq<P.RxWord>, starved: nat -> bool) returns (droppedBytes: nat, restarts: nat)
      requires ReceiveValid() && (phase == Idle || phase == Receiving)
      modifies this`phase, this`bytesReceived, this`recvSize, this`written, receivedCommand
      ensures ReceiveValid() && (phase == Idle || phase == Receiving)
      ensures Parser() == P.FeedAll(old(Parser()), group)
      ensures droppedBytes == P.Dropped(old(Parser()), group) && restarts == P.Unknowns(old(Parser()), group)
      ensures Wrote(old(written), written, starved, restarts)
    {
      droppedBytes, restarts := 0, 0;
      ghost var p := Parser();
      var i := 0;
      while i < |group|
        invariant 0 <= i <= |group| && ReceiveValid() && (phase == Idle || phase == Receiving)
        invariant Read(p, group, i, Parser(), droppedBytes, restarts)
        invariant Wrote(old(written), written, starved, restarts)
      {
        ghost var before, q := written, Parser();
        var dropped, unknown := ReadWord(group[i], starved(restarts));
        ReadOneMore(p, group, i, q, droppedBytes, restarts);
        WroteMore(old(written), before, written, starved, restarts, unknown);
        droppedBytes := droppedBytes + if dropped then 1 else 0;
        restarts := restarts + if unknown then 1 else 0;
        i := i + 1;
      }
      assert group[..i] == group;
    }

    /** A complete frame is a command if its checksum matches; otherwise the transfer is given up. */
    method CheckFrame(starved: bool)
      requires ReceiveValid() && (phase == Idle || phase == Receiving)
      modifies this`phase, this`written
      ensures var p := old(Parser());
        var full := p.state == P.Receiving && |p.buf| == p.size;
        && phase == (if P.Mismatch(p) then Idle else if full then CmdReceived else old(phase))
        && written == old(written) + Fillers(if P.Mismatch(p) && starved then 1 else 0)
    {
      if phase == Receiving && bytesReceived == recvSize {
        var crc := Crc8.CalcRaw(receivedCommand[1..bytesReceived]);
        SubarrayOf(receivedCommand, 0, bytesReceived);
        assert receivedCommand[..bytesReceived][1..] == receivedCommand[1..bytesReceived];
        if crc == receivedCommand[0] {
          phase := CmdReceived;
        } else {
          Abort(starved);
        }
      }
    }

    /** Takes in what the bus has sent, gives up on dropped bytes, and looks at a complete frame. */
    method Receive(group: seq<P.RxWord>, starved: nat -> bool)
      requires ReceiveValid() && (phase == Idle || phase == Receiving)
      modifies this`phase, this`bytesReceived, this`recvSize, this`written, receivedCommand
      ensures ReceiveValid()
      ensures var q := P.OnGroup(old(Parser()), group);
        && receivedCommand[..bytesReceived] == q.buf && recvSize == q.size
        && phase == (match q.state case Idle => Idle case Receiving => Receiving case Received => CmdReceived)
      ensures Wrote(old(written), written, starved, P.Restarts(old(Parser()), group))
    {
      GroupEnd(Parser(), group);
      var droppedBytes, restarts := ReadGroup(group, starved);
      ghost var before, again := written, droppedBytes > 0 || P.Mismatch(Parser());
      EndGroup(droppedBytes, starved(restarts));
      WroteMore(old(written), before, written, starved, restarts, again);
    }

    /** The end of the interrupt: at most one more restart. */
    method EndGroup(droppedBytes: nat, starved: bool)
      requires ReceiveValid() && (phase == Idle || phase == Receiving)
      modifies this`phase, this`written
      ensures var q := old(Parser());
        var again := droppedBytes > 0 || P.Mismatch(q);
        var full := q.state == P.Receiving && |q.buf| == q.size;
        && phase == (if again then Idle else if full then CmdReceived else old(phase))
        && written == old(written) + Fillers(if again && starved then 1 else 0)
    {
      if droppedBytes > 0 {
        Abort(starved);
      }
      CheckFrame(starved);
    }

    method OnRxFull(group: seq<P.RxWord>, starved: nat -> bool)
      requires Valid()
      modifies this`phase, this`bytesReceived, this`recvSize, this`written, receivedCommand
      ensures Valid() && Abs() == RxFull(old(Abs()), group, Starved(starved, Restarts(old(Abs()), group)))
    {
      if phase == Idle || phase == Receiving {
        Receive(group, starved);
      } else {
        assert Starved(starved, 1) == Starved(starved, 0) + if starved(0) then 1 else 0;
        RestartHardware(starved(0));
      }
    }

    // ---- The main loop ----

    /** async_i2c_target_get_next_command, up to its critical section: a command that waits is copied out whole. */
    method CopyCommand(cmd: array<bv8>) returns (found: bool)
      requires Valid() && cmd.Length == P.MAX_CMD_LENGTH && cmd != receivedCommand && cmd != response
      modifies cmd
      ensures Valid() && Abs() == old(Abs()) && found == Claimable(Abs())
      ensures found ==> cmd[..bytesReceived] == Abs().command && cmd[bytesReceived..] == old(cmd[bytesReceived..])
      ensures !found ==> cmd[..] == old(cmd[..])
    {
      found := phase == CmdReceived || phase == WaitingForResponse;
      if found {
        var i := 0;
        while i < bytesReceived
          invariant 0 <= i <= bytesReceived
          invariant cmd[..i] == receivedCommand[..i] && cmd[i..] == old(cmd[..])[i..]
        {
          cmd[i] := receivedCommand[i];
          i := i + 1;
        }
      }
    }

    /** The critical section that claims the command for processing; a read that waits keeps waiting. */
    method ClaimCommand()
      requires Valid() && Claimable(Abs())
      modifies this`phase
      ensures Valid() && Abs() == Claimed(old(Abs())) && InProcess(Abs())
    {
      if phase != WaitingForResponse {
        phase := CmdProcessing;
      }
    }

    /** The command dispatch stores its result behind the checksum. */
    method StoreResult(data: seq<bv8>)
      requires Valid() && |data| < RESPONSE_CAPACITY
      modifies response
      ensures Valid() && Abs() == Stored(old(Abs()), data)
    {
      var i := 0;
      while i < |data|
        invariant 0 <= i <= |data|
        invariant forall k :: 0 <= k < RESPONSE_CAPACITY ==>
          response[k] == if 1 <= k <= i then data[k - 1] else old(response[k])
        modifies response
      {
        response[i + 1] := data[i];
        i := i + 1;
      }
      assert response[..] == Stored(old(Abs()), data).memory;
    }

    /** async_i2c_target_finish_command, up to the critical section. */
    method PostResponse(size: nat)
      requires Valid() && 0 < size <= RESPONSE_CAPACITY
      modifies this`responseSize, this`bytesSent, response
      ensures Valid() && Abs() == WithChecksum(old(Abs()), size)
    {
      var crc := Crc8.CalcRaw(response[1..size]);
      response[0] := crc;
      responseSize := size;
      bytesSent := 0;
    }

    /** The critical section that ends the processing. */
    method CommitResponse(size: nat) returns (needsResponse: bool)
      requires Valid()
      modifies this`phase
      ensures Valid() && Abs() == Committed(old(Abs()), size)
      ensures needsResponse == (old(phase) == WaitingForResponse)
    {
      needsResponse := phase == WaitingForResponse;
      phase := if size > 0 then Responding else Idle;
    }

    /** A read was waiting, but there is no response to it. */
    method RejectRead(starved: bool)
      requires Valid()
      modifies this`phase, this`written
      ensures Valid() && Abs() == Rejected(old(Abs()), if starved then 1 else 0)
    {
      Abort(starved);
      written := written + [Filler];
    }
  }

  /** After n restarts each that found the queue starved has written its filler. */
  ghost predicate Wrote(before: seq<Out>, after: seq<Out>, starved: nat -> bool, n: nat) {
    after == before + Fillers(Starved(starved, n))
  }

  lemma WroteMore(before: seq<Out>, mid: seq<Out>, after: seq<Out>, starved: nat -> bool, n: nat, again: bool)
    requires Wrote(before, mid, starved, n) && after == mid + Fillers(if again && starved(n) then 1 else 0)
    ensures Wrote(before, after, starved, n + if again then 1 else 0)
  {}

  /** How an interrupt ends, given what feeding its words has left. */
  lemma GroupEnd(p: P.Parser, group: seq<P.RxWord>)
    ensures var q, n := P.FeedAll(p, group), P.Unknowns(p, group);
      if P.Dropped(p, group) > 0 || P.Mismatch(q) then
        P.OnGroup(p, group) == q.(state := P.Idle) && P.Restarts(p, group) == n + 1
      else
        && P.Restarts(p, group) == n
        && P.OnGroup(p, group)
          == if q.state == P.Receiving && |q.buf| == q.size then q.(state := P.Received) else q
  {}

  lemma SubarrayOf(a: array<bv8>, i: nat, j: nat)
    requires i <= j <= a.Length
    ensures a[i..j] == a[..][i..j]
  {}

  /** What the first i words have made of the parser, how many were dropped, and how many unknown ids they held. */
  predicate Read(p: P.Parser, group: seq<P.RxWord>, i: nat, q: P.Parser, dropped: nat, unknowns: nat) {
    && i <= |group| && q == P.FeedAll(p, group[..i])
    && dropped == P.Dropped(p, group[..i]) && unknowns == P.Unknowns(p, group[..i])
  }

  lemma ReadOneMore(p: P.Parser, group: seq<P.RxWord>, i: nat, q: P.Parser, dropped: nat, unknowns: nat)
    requires i < |group| && Read(p, group, i, q, dropped, unknowns)
    ensures Read(p, group, i + 1, P.Feed(q, group[i]), dropped + (if P.Drops(q, group[i]) then 1 else 0),
                 unknowns + if P.Unknown(q, group[i]) then 1 else 0)
  {
    assert group[..i + 1][..i] == group[..i];
  }
}
