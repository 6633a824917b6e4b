/**
 * The actuator board as an I2C target: what the interrupt handler and the main loop do to
 * the shared transfer record, one step at a time. The main loop is cut at its critical
 * sections, so that any interrupt may come between two of its steps.
 */
module I2cTargetSpec {
  import P = ActuatorProtocol
  import Crc8

  const RESPONSE_CAPACITY: nat := 10   // checksum and status record

  datatype Phase = Idle | Receiving | CmdReceived | CmdProcessing | WaitingForResponse | Responding

  /** A byte put into the transmit queue: one of the response, or the 0xFF that stands for no data. */
  datatype Out = Data(b: bv8) | Filler

  /** The driver's record, the response buffer it points into, and what it has written to the queue. */
  datatype Target = Target(
    phase: Phase,
    command: seq<bv8>,
    receiveSize: nat,
    memory: seq<bv8>,
    responseSize: nat,
    bytesSent: nat,
    txEmptyMask: bool,
    written: seq<Out>)

  predicate Sized(t: Target) {
    |t.memory| == RESPONSE_CAPACITY && t.bytesSent <= t.responseSize <= RESPONSE_CAPACITY
  }

  // ---- The interrupt handler ----

  function AsData(bytes: seq<bv8>): (out: seq<Out>)
    ensures |out| == |bytes|
  {
    seq(|bytes|, i requires 0 <= i < |bytes| => Data(bytes[i]))
  }

  function Min(a: nat, b: nat): nat {
    if a <= b then a else b
  }

  /** Queues as many response bytes as there is room for. */
  function Fill(t: Target, room: nat): Target
    requires Sized(t)
  {
    var n := Min(room, t.responseSize - t.bytesSent);
    t.(bytesSent := t.bytesSent + n,
       written := t.written + AsData(t.memory[t.bytesSent..t.bytesSent + n]),
       txEmptyMask := t.bytesSent + n != t.responseSize)
  }

  function WriteFiller(t: Target): Target {
    t.(written := t.written + [Filler])
  }

  function RxDone(t: Target): Target {
    if t.phase == Responding then t.(phase := Idle, txEmptyMask := false) else t
  }

  function TxEmpty(t: Target, room: nat): Target
    requires Sized(t)
  {
    if !t.txEmptyMask then t
    else if t.phase != Responding then t.(txEmptyMask := false)
    else Fill(t, room)
  }

  function RdReq(t: Target, room: nat): Target
    requires Sized(t)
  {
    if t.phase == CmdProcessing || t.phase == CmdReceived then t.(phase := WaitingForResponse)
    else if t.phase == Responding && t.bytesSent < t.responseSize then Fill(t, room)
    else WriteFiller(t)
  }

  function AsParser(t: Target): P.Parser {
    P.Parser(if t.phase == Receiving then P.Receiving else P.Idle, t.command, t.receiveSize)
  }

  function FromParser(t: Target, p: P.Parser): Target {
    var phase := match p.state case Idle => Idle case Receiving => Receiving case Received => CmdReceived;
    t.(phase := phase, command := p.buf, receiveSize := p.size)
  }

  function Fillers(n: nat): (out: seq<Out>)
    ensures |out| == n
  {
    seq(n, i requires 0 <= i < n => Filler)
  }

  /** How often data on the bus makes the handler restart the hardware. */
  function Restarts(t: Target, group: seq<P.RxWord>): nat {
    if t.phase == Idle || t.phase == Receiving then P.Restarts(AsParser(t), group) else 1
  }

  /** How many of the first n restarts find the queue starved. */
  function Starved(starved: nat -> bool, n: nat): (fillers: nat)
    ensures fillers <= n && (n > 0 && starved(0) ==> fillers > 0)
  {
    if n == 0 then 0 else Starved(starved, n - 1) + if starved(n - 1) then 1 else 0
  }

  /** Data on the bus. A restart of a starved queue (bus active, queue empty) writes a filler. */
  function RxFull(t: Target, group: seq<P.RxWord>, fillers: nat): Target {
    var q := if t.phase == Idle || t.phase == Receiving then FromParser(t, P.OnGroup(AsParser(t), group)) else t;
    q.(written := t.written + Fillers(fillers))
  }

  // ---- What the main loop does to the record ----

  /** The critical section of async_i2c_target_get_next_command. */
  function Claimed(t: Target): Target {
    t.(phase := if t.phase != WaitingForResponse then CmdProcessing else WaitingForResponse)
  }

  /** The command dispatch writes the response data into the shared buffer, behind the checksum. */
  function Stored(t: Target, data: seq<bv8>): Target
    requires Sized(t) && |data| < RESPONSE_CAPACITY
  {
    t.(memory := t.memory[..1] + data + t.memory[|data| + 1..])
  }

  /** async_i2c_target_finish_command up to its critical section. */
  function WithChecksum(t: Target, size: nat): Target
    requires Sized(t) && 0 < size <= RESPONSE_CAPACITY
  {
    t.(memory := t.memory[0 := Crc8.Checksum(t.memory[1..size])], responseSize := size, bytesSent := 0)
  }

  /** What is posted carries its checksum in front. */
  lemma ChecksumInFront(t: Target, size: nat)
    requires Sized(t) && 2 <= size <= RESPONSE_CAPACITY
    ensures var r := WithChecksum(t, size).memory[..size]; |r| == size && r[0] == Crc8.Checksum(r[1..])
  {
    assert WithChecksum(t, size).memory[..size][1..] == t.memory[1..size];
  }

  function Committed(t: Target, size: nat): Target {
    t.(phase := if size > 0 then Responding else Idle)
  }

  /** The abort sets the phase back to idle whatever it is by now. */
  function Rejected(t: Target, fillers: nat): Target {
    t.(phase := Idle, written := t.written + Fillers(fillers) + [Filler])
  }

  // ---- The main loop ----

  /** Where the main loop is between two of its steps. */
  datatype Pc =
    | Polling
    | Copying                       // a command was seen
    | Copied                        // ... and copied out
    | Working                       // it has been claimed
    | Finishing(size: nat)          // the response data is in the buffer
    | Posted(size: nat)             // checksum, size and position are set
    | Filling                       // a read was waiting, and there is a response
    | Rejecting                     // a read was waiting, and there is none
    | Rebooted                      // the command was to reset the board

  datatype World = World(
    t: Target,
    pc: Pc,
    copy: seq<bv8>,
    held: bool,                     // the bus is held by a read that got no data yet
    posted: seq<bv8>,               // the last response posted
    mark: nat,                      // how much had been written when it was posted
    heard: seq<P.RxWord>,           // everything the parser was given
    received: seq<seq<bv8>>,
    delivered: seq<seq<bv8>>,       // the commands claimed by the main loop
    replies: seq<seq<bv8>>)         // the responses it posted

  datatype Event =
    | RxDoneIrq
    | TxEmptyIrq(room: nat)
    | RdReqIrq(room: nat)
    | RxFullIrq(group: seq<P.RxWord>, fillers: nat)
    | MainStep(data: seq<bv8>, room: nat, starved: bool)

  const STATUS_LENGTH: nat := 9
  const RESULT_LENGTH: nat := 1
  const RESET_ID: bv8 := 12

  /** How much data the dispatch answers a command with. */
  function ReplyLength(frame: seq<bv8>): (n: nat)
    ensures n < RESPONSE_CAPACITY
  {
    if |frame| < P.BASE_CMD_LENGTH || frame[1] >= RESET_ID then 0
    else if frame[1] == 0 then STATUS_LENGTH else RESULT_LENGTH
  }

  predicate Resets(frame: seq<bv8>) {
    |frame| >= P.BASE_CMD_LENGTH && frame[1] == RESET_ID
  }

  /**
   * A held bus carries nothing else; its queue is empty, so that there is room and the next
   * restart finds it starved. The dispatch answers as the command id dictates, and a board
   * that reboots does nothing more.
   */
  predicate Enabled(w: World, e: Event) {
    && w.pc != Rebooted
    && match e
       case RxDoneIrq => !w.held
       case TxEmptyIrq(_) => true
       case RdReqIrq(room) => !w.held && room > 0
       case RxFullIrq(group, fillers) =>
         fillers <= Restarts(w.t, group) && (w.held && Restarts(w.t, group) > 0 ==> fillers > 0)
       case MainStep(data, room, starved) =>
         && |data| < RESPONSE_CAPACITY && (w.pc == Working ==> |data| == ReplyLength(w.copy))
         && (w.held ==> room > 0 && starved)
  }

  /** A held read goes on as soon as anything is written. */
  function Update(w: World, t: Target): World {
    w.(t := t, held := w.held && t.written == w.t.written)
  }

  /** The main loop has claimed a command and not yet committed a response. */
  predicate Busy(pc: Pc) {
    pc.Working? || pc.Finishing? || pc.Posted? || pc.Rebooted?
  }

  /** A command is in the receive buffer and the main loop has yet to claim it. */
  predicate Undelivered(w: World) {
    || w.t.phase == CmdReceived
    || (w.t.phase == WaitingForResponse && !Busy(w.pc))
  }

  function OnRxFull(w: World, group: seq<P.RxWord>, fillers: nat): World {
    var t := RxFull(w.t, group, fillers);
    var open := w.t.phase == Idle || w.t.phase == Receiving;
    Update(w, t).(heard := if open then w.heard + group else w.heard,
                  received := if open && t.phase == CmdReceived then w.received + [t.command] else w.received)
  }

  function OnRdReq(w: World, room: nat): World
    requires Sized(w.t)
  {
    var t := RdReq(w.t, room);
    w.(t := t, held := t.written == w.t.written)
  }

  /** async_i2c_target_get_next_command up to and including its critical section. */
  function Poll(w: World): World {
    if w.t.phase == CmdReceived || w.t.phase == WaitingForResponse then w.(pc := Copying) else w
  }

  function Claim(w: World): World {
    w.(pc := Working, t := Claimed(w.t), delivered := w.delivered + [w.copy])
  }

  /** No data means no response; the reset command does not come back. */
  function Work(w: World, data: seq<bv8>): World
    requires Sized(w.t) && |data| < RESPONSE_CAPACITY
  {
    if Resets(w.copy) then w.(pc := Rebooted)
    else w.(pc := Finishing(if data == [] then 0 else |data| + 1), t := Stored(w.t, data))
  }

  function Post(w: World, size: nat): World
    requires Sized(w.t) && size <= RESPONSE_CAPACITY
  {
    if size == 0 then w.(pc := Posted(0))
    else
      var t := WithChecksum(w.t, size);
      w.(pc := Posted(size), t := t, posted := t.memory[..size], mark := |w.t.written|,
          replies := w.replies + [t.memory[..size]])
  }

  function Commit(w: World, size: nat): World {
    var wanted := w.t.phase == WaitingForResponse;
    w.(t := Committed(w.t, size), pc := if !wanted then Polling else if size > 0 then Filling else Rejecting)
  }

  function Reject(w: World, starved: bool): World {
    Update(w, Rejected(w.t, if starved then 1 else 0)).(pc := Polling)
  }

  predicate SizedPc(pc: Pc) {
    (pc.Finishing? || pc.Posted?) ==> pc.size <= RESPONSE_CAPACITY
  }

  function Main(w: World, data: seq<bv8>, room: nat, starved: bool): World
    requires Sized(w.t) && |data| < RESPONSE_CAPACITY && SizedPc(w.pc)
  {
    match w.pc
    case Polling => Poll(w)
    case Copying => w.(pc := Copied, copy := w.t.command)
    case Copied => Claim(w)
    case Working => Work(w, data)
    case Finishing(size) => Post(w, size)
    case Posted(size) => Commit(w, size)
    case Filling => Update(w, Fill(w.t, room)).(pc := Polling)
    case Rejecting => Reject(w, starved)
    case Rebooted => w
  }

  function Step(w: World, e: Event): World
    requires Sized(w.t) && SizedPc(w.pc)
  {
    if !Enabled(w, e) then w
    else match e
      case RxDoneIrq => Update(w, RxDone(w.t))
      case TxEmptyIrq(room) => Update(w, TxEmpty(w.t, room))
      case RdReqIrq(room) => OnRdReq(w, room)
      case RxFullIrq(group, fillers) => OnRxFull(w, group, fillers)
      case MainStep(data, room, starved) => Main(w, data, room, starved)
  }

  // ---- Runs ----

  function Start(memory: seq<bv8>): World {
    World(Target(Idle, [], 0, memory, 0, 0, false, []), Polling, [], false, [], 0, [], [], [], [])
  }

  /** Every known command but the reset is answered. */
  predicate Answerable(frame: seq<bv8>) {
    Resets(frame) || ReplyLength(frame) > 0
  }

  predicate Claimable(t: Target) {
    t.phase == CmdReceived || t.phase == WaitingForResponse
  }

  predicate InProcess(t: Target) {
    t.phase == CmdProcessing || t.phase == WaitingForResponse
  }

  /**
   * Which command phases go with which step of the main loop: the two panics of the driver
   * never happen, the response has the length that the command asks for, and the path that
   * rejects a read for want of a response is never taken.
   */
  predicate InStep(w: World) {
    match w.pc
    case Polling => w.t.phase != CmdProcessing
    case Copying => Claimable(w.t)
    case Copied => Claimable(w.t) && w.copy == w.t.command
    case Working => InProcess(w.t) && Answerable(w.copy)
    case Finishing(size) => InProcess(w.t) && 2 <= size == ReplyLength(w.copy) + 1
    case Posted(size) =>
      && InProcess(w.t) && 2 <= size == ReplyLength(w.copy) + 1
      && size == w.t.responseSize && w.t.bytesSent == 0
    case Filling => w.t.phase != CmdProcessing
    case Rejecting => false
    case Rebooted => InProcess(w.t)
  }

  /** A held read waits for the main loop, which has yet to commit or to fill. */
  predicate HeldFor(w: World) {
    w.held ==>
      || w.t.phase == WaitingForResponse
      || (w.pc == Filling && w.t.phase == Responding && w.t.bytesSent == 0 < w.t.responseSize)
  }

  predicate Handshake(w: World) {
    Sized(w.t) && SizedPc(w.pc) && InStep(w) && HeldFor(w)
  }

  function Bytes(out: seq<Out>): (bytes: seq<bv8>) {
    if out == [] then []
    else
      var init := Bytes(out[..|out| - 1]);
      match out[|out| - 1] case Data(b) => init + [b] case Filler => init
  }

  predicate GoodResponse(r: seq<bv8>) {
    r == [] || (|r| >= 2 && r[0] == Crc8.Checksum(r[1..]))
  }

  predicate Exposed(w: World) {
    w.t.phase == Responding || w.pc == Filling || (w.pc.Posted? && w.pc.size > 0)
  }

  /** What has been queued since a response was posted is a prefix of it, in order. */
  predicate InOrder(w: World) {
    && Sized(w.t) && w.t.responseSize == |w.posted| && GoodResponse(w.posted)
    && w.mark <= |w.t.written|
    && Bytes(w.t.written[w.mark..]) == w.posted[..w.t.bytesSent]
    && (Exposed(w) ==> w.posted == w.t.memory[..w.t.responseSize])
  }

  /** Each received command has been delivered, once and in order, or is the one in the receive buffer. */
  ghost predicate Accounted(w: World) {
    && w.received == w.delivered + (if Undelivered(w) then [w.t.command] else [])
    && (forall f :: f in w.received ==> P.ValidFrame(f))
    && P.Tracks(AsParser(w.t), w.heard)
  }

  /** The reply has the length that the command asks for, and its checksum. */
  predicate Answers(reply: seq<bv8>, frame: seq<bv8>) {
    2 <= |reply| == ReplyLength(frame) + 1 && reply[0] == Crc8.Checksum(reply[1..])
  }

  /** The replies answer the first commands, in order. */
  predicate AllAnswered(replies: seq<seq<bv8>>, commands: seq<seq<bv8>>) {
    |replies| <= |commands| && forall i :: 0 <= i < |replies| ==> Answers(replies[i], commands[i])
  }

  /** Each delivered command has been answered, once and in order, but for the one being worked on. */
  predicate Answered(w: World) {
    && |w.delivered| == |w.replies| + (if w.pc.Working? || w.pc.Finishing? || w.pc.Rebooted? then 1 else 0)
    && AllAnswered(w.replies, w.delivered)
    && (Busy(w.pc) ==> w.delivered != [] && w.delivered[|w.delivered| - 1] == w.copy)
    && (w.pc.Rebooted? ==> Resets(w.copy))
    && w.posted == (if w.replies == [] then [] else w.replies[|w.replies| - 1])
  }

  ghost predicate Inv(w: World) {
    InOrder(w) && Handshake(w) && Accounted(w) && Answered(w)
  }
}
