/** What the bytes of a command frame mean to the dispatch of the actuator board, and how the sender lays them out. */
module CommandCoding {
  import opened ActuatorBoardSpec
  import opened Bytes
  import opened Common
  import P = ActuatorProtocol

  // ---- Commands ----

  /** What the dispatch makes of a valid frame; the reset is no command to the actuators. */
  function Decode(frame: seq<bv8>): Option<Command> {
    if |frame| < P.BASE_CMD_LENGTH || P.CmdSize(frame[1]) != |frame| then None
    else match frame[1]
      case 0 => Some(GetStatus)
      case 1 => Some(OpenClaw)
      case 2 => Some(CloseClaw)
      case 3 => Some(SetClawTiming(Value16(frame[2], frame[3]), Value16(frame[4], frame[5])))
      case 4 => Some(ArmTorpedo)
      case 5 => Some(DisarmTorpedo)
      case 6 => Some(FireTorpedo(Value(frame[2])))
      case 7 => Some(SetTorpedoTiming(Value(frame[2]), Value(frame[3]), Value16(frame[4], frame[5])))
      case 8 => Some(Drop(Value(frame[2])))
      case 9 => Some(ClearDropperStatus)
      case 10 => Some(SetDropperTiming(Value16(frame[2], frame[3])))
      case 11 => Some(SetKillSwitch(frame[2] != 0))
      case _ => None
  }

  /** The fields fit the bytes that the frame has for them. */
  predicate Representable(c: Command) {
    match c
    case SetClawTiming(open, close) => open < 0x1_0000 && close < 0x1_0000
    case FireTorpedo(num) => num < 0x100
    case SetTorpedoTiming(num, kind, time) => num < 0x100 && kind < 0x100 && time < 0x1_0000
    case Drop(num) => num < 0x100
    case SetDropperTiming(time) => time < 0x1_0000
    case _ => true
  }

  function Id(c: Command): bv8 {
    match c
    case GetStatus => 0
    case OpenClaw => 1
    case CloseClaw => 2
    case SetClawTiming(_, _) => 3
    case ArmTorpedo => 4
    case DisarmTorpedo => 5
    case FireTorpedo(_) => 6
    case SetTorpedoTiming(_, _, _) => 7
    case Drop(_) => 8
    case ClearDropperStatus => 9
    case SetDropperTiming(_) => 10
    case SetKillSwitch(_) => 11
  }

  function Data(c: Command): seq<bv8>
    requires Representable(c)
  {
    match c
    case SetClawTiming(open, close) => [Low(open), High(open), Low(close), High(close)]
    case FireTorpedo(num) => [Byte(num)]
    case SetTorpedoTiming(num, kind, time) => [Byte(num), Byte(kind), Low(time), High(time)]
    case Drop(num) => [Byte(num)]
    case SetDropperTiming(time) => [Low(time), High(time)]
    case SetKillSwitch(asserting) => [if asserting then 1 else 0]
    case _ => []
  }

  /** The frame that the sender builds for a command. */
  function Frame(c: Command): seq<bv8>
    requires Representable(c)
  {
    P.BuildFrame(Id(c), Data(c))
  }

  lemma FrameLayout(id: bv8, data: seq<bv8>)
    ensures var f := P.BuildFrame(id, data);
      |f| == |data| + 2 && f[1] == id && forall i :: 0 <= i < |data| ==> f[i + 2] == data[i]
  {}

  lemma DataSized(c: Command)
    requires Representable(c)
    ensures P.CmdSize(Id(c)) == |Data(c)| + P.BASE_CMD_LENGTH
  {}

  predicate LaidOut(frame: seq<bv8>, c: Command)
    requires Representable(c)
  {
    && |frame| == |Data(c)| + 2 && frame[1] == Id(c)
    && forall i :: 0 <= i < |Data(c)| ==> frame[i + 2] == Data(c)[i]
  }

  lemma ReadTorpedoTiming(frame: seq<bv8>)
    requires |frame| == 6 && frame[1] == 7
    ensures Decode(frame) == Some(SetTorpedoTiming(Value(frame[2]), Value(frame[3]), Value16(frame[4], frame[5])))
  {}

  lemma ReadClawTiming(frame: seq<bv8>)
    requires |frame| == 6 && frame[1] == 3
    ensures Decode(frame) == Some(SetClawTiming(Value16(frame[2], frame[3]), Value16(frame[4], frame[5])))
  {}

  lemma TorpedoTimingDecodes(frame: seq<bv8>, num: nat, kind: nat, time: nat)
    requires num < 0x100 && kind < 0x100 && time < 0x1_0000 && |frame| == 6 && frame[1] == 7
    requires frame[2] == Byte(num) && frame[3] == Byte(kind) && frame[4] == Low(time) && frame[5] == High(time)
    ensures Decode(frame) == Some(SetTorpedoTiming(num, kind, time))
  {
    ReadTorpedoTiming(frame);
    ByteValue(num);
    ByteValue(kind);
    WordValue(time);
  }

  lemma ClawTimingDecodes(frame: seq<bv8>, open: nat, close: nat)
    requires open < 0x1_0000 && close < 0x1_0000 && |frame| == 6 && frame[1] == 3
    requires frame[2] == Low(open) && frame[3] == High(open) && frame[4] == Low(close) && frame[5] == High(close)
    ensures Decode(frame) == Some(SetClawTiming(open, close))
  {
    ReadClawTiming(frame);
    WordValue(open);
    WordValue(close);
  }

  lemma NumberDecodes(frame: seq<bv8>, num: nat)
    requires num < 0x100 && |frame| == 3 && frame[2] == Byte(num)
    ensures frame[1] == 6 ==> Decode(frame) == Some(FireTorpedo(num))
    ensures frame[1] == 8 ==> Decode(frame) == Some(Drop(num))
  {
    ByteValue(num);
  }

  lemma ReadDropperTiming(frame: seq<bv8>)
    requires |frame| == 4 && frame[1] == 10
    ensures Decode(frame) == Some(SetDropperTiming(Value16(frame[2], frame[3])))
  {}

  lemma DropperTimingDecodes(frame: seq<bv8>, time: nat)
    requires time < 0x1_0000 && |frame| == 4 && frame[1] == 10 && frame[2] == Low(time) && frame[3] == High(time)
    ensures Decode(frame) == Some(SetDropperTiming(time))
  {
    ReadDropperTiming(frame);
    WordValue(time);
  }

  lemma BareDecodes(frame: seq<bv8>, c: Command)
    requires Representable(c) && Data(c) == [] && |frame| == 2 && frame[1] == Id(c)
    ensures Decode(frame) == Some(c)
  {}

  lemma LaidOutDecodes(frame: seq<bv8>, c: Command)
    requires Representable(c) && LaidOut(frame, c)
    ensures Decode(frame) == Some(c)
  {
    match c
    case SetClawTiming(open, close) =>
      assert frame[0 + 2] == Data(c)[0] && frame[1 + 2] == Data(c)[1] && frame[2 + 2] == Data(c)[2] && frame[3 + 2] == Data(c)[3];
      ClawTimingDecodes(frame, open, close);
    case FireTorpedo(num) =>
      assert frame[0 + 2] == Data(c)[0];
      NumberDecodes(frame, num);
    case SetTorpedoTiming(num, kind, time) =>
      assert frame[0 + 2] == Data(c)[0] && frame[1 + 2] == Data(c)[1] && frame[2 + 2] == Data(c)[2] && frame[3 + 2] == Data(c)[3];
      TorpedoTimingDecodes(frame, num, kind, time);
    case Drop(num) =>
      assert frame[0 + 2] == Data(c)[0];
      NumberDecodes(frame, num);
    case SetDropperTiming(time) =>
      assert frame[0 + 2] == Data(c)[0] && frame[1 + 2] == Data(c)[1];
      DropperTimingDecodes(frame, time);
    case SetKillSwitch(_) => assert frame[0 + 2] == Data(c)[0];
    case _ => BareDecodes(frame, c);
  }

  /** The board reads from a frame exactly the command that the sender meant. */
  lemma FrameDecodes(c: Command)
    requires Representable(c)
    ensures P.ValidFrame(Frame(c)) && Decode(Frame(c)) == Some(c)
  {
    DataSized(c);
    FrameLayout(Id(c), Data(c));
    LaidOutDecodes(Frame(c), c);
  }

  /** Every valid frame but the reset is a command. */
  lemma ValidFrameDecodes(frame: seq<bv8>)
    requires P.ValidFrame(frame)
    ensures Decode(frame) == None <==> frame[1] == 12
  {}
}
