/**
 * The frames that travel between the coprocessor and the actuator board, and the
 * incremental parser by which the board recovers them.
 */
module ActuatorProtocol {
  import Crc8
  import opened ByteCode

  const BASE_CMD_LENGTH: nat := 2     // checksum and command id
  const MAX_CMD_LENGTH: nat := 6

  /** The length of a frame as its command id dictates; 0 for an unknown id. */
  function CmdSize(id: bv8): (size: nat)
    ensures size == 0 || BASE_CMD_LENGTH <= size <= MAX_CMD_LENGTH
  {
    match id
    case 0 => 2   // get status
    case 1 => 2   // open claw
    case 2 => 2   // close claw
    case 3 => 6   // claw timing
    case 4 => 2   // arm torpedo
    case 5 => 2   // disarm torpedo
    case 6 => 3   // fire torpedo
    case 7 => 6   // torpedo timing
    case 8 => 3   // drop marker
    case 9 => 2   // clear dropper status
    case 10 => 4  // dropper timing
    case 11 => 3  // kill switch
    case 12 => 2  // reset
    case _ => 0
  }

  /** A well-formed command frame: checksum, id, and as much data as the id dictates. */
  ghost predicate ValidFrame(frame: seq<bv8>) {
    && |frame| >= BASE_CMD_LENGTH
    && CmdSize(frame[1]) == |frame|
    && frame[0] == Crc8.Checksum(frame[1..])
  }

  /** The sender fills in the checksum last. */
  function BuildFrame(id: bv8, data: seq<bv8>): (frame: seq<bv8>)
    ensures CmdSize(id) == |data| + BASE_CMD_LENGTH ==> ValidFrame(frame)
  {
    assert ([Crc8.Checksum([id] + data)] + ([id] + data))[1..] == [id] + data;
    [Crc8.Checksum([id] + data)] + ([id] + data)
  }

  // ---- The parser ----

  /** A word of the receive FIFO: a byte, and whether it is the first one after the address. */
  datatype RxWord = RxWord(data: bv8, first: bool)

  datatype RxState = Idle | Receiving | Received

  datatype Parser = Parser(state: RxState, buf: seq<bv8>, size: nat)

  const IDLE_PARSER := Parser(Idle, [], 0)

  function TakeByte(p: Parser, b: bv8): Parser {
    var size := if |p.buf| == 1 then CmdSize(b) else p.size;
    if size == 0 then p.(state := Idle, size := 0) else p.(buf := p.buf + [b], size := size)
  }

  /** A byte out of place is dropped. */
  predicate Drops(p: Parser, w: RxWord) {
    !w.first && (p.state == Idle || |p.buf| >= p.size)
  }

  function Feed(p: Parser, w: RxWord): Parser {
    if w.first then TakeByte(Parser(Receiving, [], BASE_CMD_LENGTH), w.data)
    else if Drops(p, w) then p
    else TakeByte(p, w.data)
  }

  function FeedAll(p: Parser, ws: seq<RxWord>): Parser {
    if ws == [] then p else Feed(FeedAll(p, ws[..|ws| - 1]), ws[|ws| - 1])
  }

  function Dropped(p: Parser, ws: seq<RxWord>): nat {
    if ws == [] then 0
    else Dropped(p, ws[..|ws| - 1]) + (if Drops(FeedAll(p, ws[..|ws| - 1]), ws[|ws| - 1]) then 1 else 0)
  }

  /** Whether taking a word meets an unknown command id. */
  predicate Unknown(p: Parser, w: RxWord) {
    !w.first && !Drops(p, w) && TakeByte(p, w.data).size == 0
  }

  function Unknowns(p: Parser, ws: seq<RxWord>): nat {
    if ws == [] then 0
    else Unknowns(p, ws[..|ws| - 1]) + (if Unknown(FeedAll(p, ws[..|ws| - 1]), ws[|ws| - 1]) then 1 else 0)
  }

  /** A frame is in, but its checksum does not match. */
  predicate Mismatch(p: Parser) {
    p.state == Receiving && |p.buf| == p.size && !(|p.buf| > 0 && p.buf[0] == Crc8.Checksum(p.buf[1..]))
  }

  /** How often the interrupt restarts the hardware: at unknown ids, and for dropped bytes or a mismatch. */
  function Restarts(p: Parser, ws: seq<RxWord>): nat {
    Unknowns(p, ws) + if Dropped(p, ws) > 0 || Mismatch(FeedAll(p, ws)) then 1 else 0
  }

  /** One receive interrupt: reads a group of words, gives up on dropped bytes, checks a full frame. */
  function OnGroup(p: Parser, ws: seq<RxWord>): Parser {
    var q := FeedAll(p, ws);
    var q1 := if Dropped(p, ws) > 0 then q.(state := Idle) else q;
    if q1.state == Receiving && |q1.buf| == q1.size then
      if |q1.buf| > 0 && q1.buf[0] == Crc8.Checksum(q1.buf[1..]) then q1.(state := Received) else q1.(state := Idle)
    else q1
  }

  /** A sequence of interrupts; once a command has been received the parser is left alone. */
  function OnGroups(p: Parser, groups: seq<seq<RxWord>>): Parser {
    if groups == [] then p
    else
      var q := OnGroups(p, groups[..|groups| - 1]);
      if q.state == Received then q else OnGroup(q, groups[|groups| - 1])
  }

  function Words(groups: seq<seq<RxWord>>): seq<RxWord> {
    if groups == [] then [] else Words(groups[..|groups| - 1]) + groups[|groups| - 1]
  }

  /** The bytes from the last first-byte flag on. */
  function SinceFirst(ws: seq<RxWord>): seq<bv8> {
    if ws == [] then []
    else
      var w := ws[|ws| - 1];
      if w.first then [w.data] else SinceFirst(ws[..|ws| - 1]) + [w.data]
  }

  /** What a parser in the middle of a frame knows, `ws` being all words so far. */
  ghost predicate Collects(p: Parser, ws: seq<RxWord>) {
    p.state != Idle ==>
      && p.buf == SinceFirst(ws) && 1 <= |p.buf| <= p.size <= MAX_CMD_LENGTH
      && p.size == if |p.buf| == 1 then BASE_CMD_LENGTH else CmdSize(p.buf[1])
  }

  ghost predicate Tracks(p: Parser, ws: seq<RxWord>) {
    Collects(p, ws) && (p.state == Received ==> ValidFrame(p.buf))
  }

  lemma FeedCollects(p: Parser, ws: seq<RxWord>, w: RxWord)
    requires Collects(p, ws) && p.state != Received && !Drops(p, w)
    ensures Collects(Feed(p, w), ws + [w]) && Feed(p, w).state != Received
  {
    assert (ws + [w])[..|ws|] == ws;
  }

  lemma Snoc(ws: seq<RxWord>, more: seq<RxWord>, n: nat)
    requires |more| == n + 1
    ensures ws + more == (ws + more[..n]) + [more[n]]
  {}

  lemma {:induction false} FeedAllCollects(p: Parser, ws: seq<RxWord>, more: seq<RxWord>)
    requires Collects(p, ws) && p.state != Received && Dropped(p, more) == 0
    ensures Collects(FeedAll(p, more), ws + more) && FeedAll(p, more).state != Received
  {
    if more == [] {
      assert ws + more == ws;
    } else {
      var n := |more| - 1;
      FeedAllCollects(p, ws, more[..n]);
      FeedCollects(FeedAll(p, more[..n]), ws + more[..n], more[n]);
      Snoc(ws, more, n);
    }
  }

  lemma OnGroupTracks(p: Parser, ws: seq<RxWord>, group: seq<RxWord>)
    requires Tracks(p, ws) && p.state != Received
    ensures Tracks(OnGroup(p, group), ws + group)
  {
    if Dropped(p, group) == 0 { FeedAllCollects(p, ws, group); }
  }

  lemma {:induction false} OnGroupsTrack(groups: seq<seq<RxWord>>)
    ensures var q := OnGroups(IDLE_PARSER, groups);
      q.state != Received ==> Tracks(q, Words(groups))
    ensures var q := OnGroups(IDLE_PARSER, groups);
      q.state == Received ==> exists n :: 0 <= n <= |groups| && Tracks(q, Words(groups[..n]))
  {
    if groups != [] {
      var n := |groups| - 1;
      OnGroupsTrack(groups[..n]);
      var q := OnGroups(IDLE_PARSER, groups[..n]);
      if q.state == Received {
        var m :| 0 <= m <= n && Tracks(q, Words(groups[..n][..m]));
        assert groups[..n][..m] == groups[..m];
      } else {
        OnGroupTracks(q, Words(groups[..n]), groups[n]);
        assert groups[..n + 1] == groups;
      }
    }
  }

  /**
   * Soundness: a command is reported only if, at the interrupt that reported it, the bytes
   * since the last first-byte flag are a frame of the length its id dictates with a
   * matching checksum; and they are the command.
   */
  lemma ParserSound(groups: seq<seq<RxWord>>)
    requires OnGroups(IDLE_PARSER, groups).state == Received
    ensures exists n :: 0 <= n <= |groups| && OnGroups(IDLE_PARSER, groups).buf == SinceFirst(Words(groups[..n]))
    ensures ValidFrame(OnGroups(IDLE_PARSER, groups).buf)
  {
    OnGroupsTrack(groups);
  }

  // ---- What becomes of any bytes that are sent ----

  /** How bytes arrive: the first one is flagged, the others are not. */
  function AsWords(bytes: seq<bv8>): (ws: seq<RxWord>)
    ensures |ws| == |bytes|
  {
    seq(|bytes|, i requires 0 <= i < |bytes| => RxWord(bytes[i], i == 0))
  }

  /** The words are those of the bytes from number k on. */
  predicate Follows(ws: seq<RxWord>, bytes: seq<bv8>, k: nat) {
    && k + |ws| <= |bytes|
    && forall i :: 0 <= i < |ws| ==> ws[i] == RxWord(bytes[k + i], k + i == 0)
  }

  function Min(a: nat, b: nat): nat {
    if a <= b then a else b
  }

  /** What the parser holds when k bytes have been fed to it; it takes no more than the id asks for. */
  ghost predicate HasTaken(p: Parser, bytes: seq<bv8>, k: nat) {
    && k <= |bytes|
    && if k == 0 then p.state == Idle
       else if k == 1 then p == Parser(Receiving, bytes[..1], BASE_CMD_LENGTH)
       else
         var n := CmdSize(bytes[1]);
         if n == 0 then p.state == Idle else p == Parser(Receiving, bytes[..Min(k, n)], n)
  }

  /** The id is in, and it is known. */
  predicate Known(bytes: seq<bv8>, k: nat) {
    2 <= k <= |bytes| && CmdSize(bytes[1]) != 0
  }

  lemma Take(p: Parser, bytes: seq<bv8>, k: nat)
    requires k < |bytes| && HasTaken(p, bytes, k)
    ensures HasTaken(Feed(p, RxWord(bytes[k], k == 0)), bytes, k + 1)
    ensures k < 2 ==> !Drops(p, RxWord(bytes[k], k == 0))
    ensures Known(bytes, k) ==> (Drops(p, RxWord(bytes[k], k == 0)) <==> k >= CmdSize(bytes[1]))
  {
    assert bytes[..k + 1] == bytes[..k] + [bytes[k]];
  }

  lemma {:induction false} TakeAll(p: Parser, bytes: seq<bv8>, k: nat, ws: seq<RxWord>)
    requires HasTaken(p, bytes, k) && Follows(ws, bytes, k)
    ensures HasTaken(FeedAll(p, ws), bytes, k + |ws|)
    ensures k + |ws| < 2 ==> Dropped(p, ws) == 0
    ensures Known(bytes, k + |ws|) ==> (Dropped(p, ws) > 0 <==> ws != [] && k + |ws| > CmdSize(bytes[1]))
  {
    if ws != [] {
      var n := |ws| - 1;
      TakeAll(p, bytes, k, ws[..n]);
      Take(FeedAll(p, ws[..n]), bytes, k + n);
    }
  }

  /** Only a flagged byte wakes an idle parser. */
  lemma {:induction false} IdleStays(p: Parser, bytes: seq<bv8>, k: nat, ws: seq<RxWord>)
    requires p.state == Idle && k > 0 && Follows(ws, bytes, k)
    ensures FeedAll(p, ws) == p && OnGroup(p, ws).state == Idle
  {
    if ws != [] { IdleStays(p, bytes, k, ws[..|ws| - 1]); }
  }

  /** The bytes up to the length that the id asks for are a frame. */
  ghost predicate FrameFirst(bytes: seq<bv8>) {
    |bytes| >= BASE_CMD_LENGTH && CmdSize(bytes[1]) <= |bytes| && ValidFrame(bytes[..CmdSize(bytes[1])])
  }

  /** One interrupt while the frame is not complete. */
  lemma GroupTaken(p: Parser, bytes: seq<bv8>, k: nat, ws: seq<RxWord>)
    requires HasTaken(p, bytes, k) && Follows(ws, bytes, k) && (Known(bytes, k) ==> k < CmdSize(bytes[1]))
    ensures var q, j := OnGroup(p, ws), k + |ws|;
      if Known(bytes, j) && j >= CmdSize(bytes[1]) then
        if j == CmdSize(bytes[1]) && FrameFirst(bytes) then q == Parser(Received, bytes[..j], j) else q.state == Idle
      else HasTaken(q, bytes, j)
  {
    TakeAll(p, bytes, k, ws);
    var j := k + |ws|;
    if Known(bytes, j) && j == CmdSize(bytes[1]) { assert bytes[..j][1] == bytes[1]; }
  }

  /** The same for a valid frame. */
  lemma FrameTaken(p: Parser, frame: seq<bv8>, k: nat, ws: seq<RxWord>)
    requires ValidFrame(frame) && k < |frame| && HasTaken(p, frame, k) && Follows(ws, frame, k)
    ensures k + |ws| < |frame| ==> HasTaken(OnGroup(p, ws), frame, k + |ws|)
    ensures k + |ws| == |frame| ==> OnGroup(p, ws) == Parser(Received, frame, |frame|)
  {
    assert frame[..|frame|] == frame;
    GroupTaken(p, frame, k, ws);
  }

  /** Some interrupt has ended with exactly n bytes read. */
  ghost predicate CutAt(groups: seq<seq<RxWord>>, n: nat) {
    exists m :: 0 <= m <= |groups| && |Words(groups[..m])| == n
  }

  lemma {:induction false} WordsPrefix(groups: seq<seq<RxWord>>, m: nat)
    requires m <= |groups|
    ensures Words(groups[..m]) <= Words(groups)
  {
    if m < |groups| {
      WordsPrefix(groups[..|groups| - 1], m);
      assert groups[..|groups| - 1][..m] == groups[..m];
    } else {
      assert groups[..m] == groups;
    }
  }

  lemma EarlierCut(groups: seq<seq<RxWord>>, n: nat)
    requires groups != [] && CutAt(groups[..|groups| - 1], n)
    ensures CutAt(groups, n)
  {
    var init := groups[..|groups| - 1];
    var m :| 0 <= m <= |init| && |Words(init[..m])| == n;
    assert init[..m] == groups[..m];
  }

  /** A cut is an earlier one, or at the end. */
  lemma CutAtLast(groups: seq<seq<RxWord>>, n: nat)
    requires groups != []
    ensures CutAt(groups, n) <==> CutAt(groups[..|groups| - 1], n) || |Words(groups)| == n
  {
    var init := groups[..|groups| - 1];
    if CutAt(init, n) { EarlierCut(groups, n); }
    assert groups[..|groups|] == groups;
    if CutAt(groups, n) && |Words(groups)| != n {
      var m :| 0 <= m <= |groups| && |Words(groups[..m])| == n;
      assert init[..m] == groups[..m];
    }
  }

  lemma NoCutYet(groups: seq<seq<RxWord>>, n: nat)
    requires |Words(groups)| < n
    ensures !CutAt(groups, n)
  {
    if CutAt(groups, n) {
      var m :| 0 <= m <= |groups| && |Words(groups[..m])| == n;
      WordsPrefix(groups, m);
    }
  }

  /** What the parser has made of the bytes sent in these groups. */
  ghost predicate Stands(p: Parser, bytes: seq<bv8>, groups: seq<seq<RxWord>>) {
    var k := |Words(groups)|;
    if !Known(bytes, k) || k < CmdSize(bytes[1]) then HasTaken(p, bytes, k)
    else
      var n := CmdSize(bytes[1]);
      if CutAt(groups, n) && FrameFirst(bytes) then p == Parser(Received, bytes[..n], n) else p.state == Idle
  }

  lemma LastGroup(bytes: seq<bv8>, before: seq<RxWord>, group: seq<RxWord>)
    requires before + group <= AsWords(bytes)
    ensures before <= AsWords(bytes) && Follows(group, bytes, |before|)
  {
    var all := before + group;
    forall i | 0 <= i < |group| ensures group[i] == RxWord(bytes[|before| + i], |before| + i == 0) {
      assert group[i] == all[|before| + i];
    }
    assert before == all[..|before|];
  }

  /** One interrupt when as many bytes have come as the id asks for. */
  lemma GroupAfter(p: Parser, bytes: seq<bv8>, groups: seq<seq<RxWord>>, group: seq<RxWord>)
    requires var k := |Words(groups)|; Known(bytes, k) && k >= CmdSize(bytes[1]) && Follows(group, bytes, k)
    requires Stands(p, bytes, groups)
    ensures Stands(if p.state == Received then p else OnGroup(p, group), bytes, groups + [group])
  {
    var n, all := CmdSize(bytes[1]), groups + [group];
    assert all[..|all| - 1] == groups;
    CutAtLast(all, n);
    if |Words(groups)| == n {
      assert groups[..|groups|] == groups;
      assert CutAt(groups, n);
    }
    if p.state == Idle { IdleStays(p, bytes, |Words(groups)|, group); }
  }

  lemma GroupBefore(p: Parser, bytes: seq<bv8>, groups: seq<seq<RxWord>>, group: seq<RxWord>)
    requires var k := |Words(groups)|; (Known(bytes, k) ==> k < CmdSize(bytes[1])) && Follows(group, bytes, k)
    requires Stands(p, bytes, groups)
    ensures Stands(if p.state == Received then p else OnGroup(p, group), bytes, groups + [group])
  {
    var all := groups + [group];
    assert all[..|all| - 1] == groups;
    GroupTaken(p, bytes, |Words(groups)|, group);
    if Known(bytes, |Words(all)|) {
      CutAtLast(all, CmdSize(bytes[1]));
      NoCutYet(groups, CmdSize(bytes[1]));
    }
  }

  lemma GroupStands(p: Parser, bytes: seq<bv8>, groups: seq<seq<RxWord>>, group: seq<RxWord>)
    requires Follows(group, bytes, |Words(groups)|) && Stands(p, bytes, groups)
    ensures Stands(if p.state == Received then p else OnGroup(p, group), bytes, groups + [group])
  {
    if Known(bytes, |Words(groups)|) && |Words(groups)| >= CmdSize(bytes[1]) {
      GroupAfter(p, bytes, groups, group);
    } else {
      GroupBefore(p, bytes, groups, group);
    }
  }

  lemma {:induction false} GroupsStand(p: Parser, bytes: seq<bv8>, groups: seq<seq<RxWord>>)
    requires p.state == Idle && Words(groups) <= AsWords(bytes)
    ensures Stands(OnGroups(p, groups), bytes, groups)
  {
    if groups != [] {
      var n := |groups| - 1;
      LastGroup(bytes, Words(groups[..n]), groups[n]);
      GroupsStand(p, bytes, groups[..n]);
      GroupStands(OnGroups(p, groups[..n]), bytes, groups[..n], groups[n]);
      assert groups[..n] + [groups[n]] == groups;
    }
  }

  /**
   * Whatever bytes are sent, and however they are grouped into interrupts: a command is
   * received exactly when an interrupt ends at the length that the second byte asks for and
   * the bytes up to there are a valid frame; they are the command.
   */
  lemma ReceivedExactlyWhen(p: Parser, bytes: seq<bv8>, groups: seq<seq<RxWord>>)
    requires p.state == Idle && Words(groups) == AsWords(bytes)
    ensures OnGroups(p, groups).state == Received <==> FrameFirst(bytes) && CutAt(groups, CmdSize(bytes[1]))
    ensures OnGroups(p, groups).state == Received ==> OnGroups(p, groups).buf == bytes[..CmdSize(bytes[1])]
  {
    GroupsStand(p, bytes, groups);
  }

  /** Completeness: a frame built by the sender is received whole however its bytes are grouped into interrupts. */
  lemma FrameReceived(p: Parser, id: bv8, data: seq<bv8>, groups: seq<seq<RxWord>>)
    requires p.state == Idle && CmdSize(id) == |data| + BASE_CMD_LENGTH
    requires Words(groups) == AsWords(BuildFrame(id, data))
    ensures OnGroups(p, groups) == Parser(Received, BuildFrame(id, data), CmdSize(id))
  {
    var frame := BuildFrame(id, data);
    assert frame[..|frame|] == frame && groups[..|groups|] == groups;
    GroupsStand(p, frame, groups);
  }

  // ---- Corruption ----

  lemma ChecksumMismatch(frame: seq<bv8>, bad: seq<bv8>, k: nat)
    requires |frame| >= 2 && DifferOnlyAt(frame, bad, k) && frame[0] == Crc8.Checksum(frame[1..])
    ensures bad[0] != Crc8.Checksum(bad[1..])
  {
    if k == 0 {
      assert bad[1..] == frame[1..];
    } else {
      assert DifferOnlyAt(frame[1..], bad[1..], k - 1);
      Crc8.SingleByteErrorDetected(frame[1..], bad[1..], k - 1);
    }
  }

  lemma BadWholeInvalid(frame: seq<bv8>, bad: seq<bv8>, k: nat)
    requires ValidFrame(frame) && DifferOnlyAt(frame, bad, k) && FrameFirst(bad)
    ensures CmdSize(bad[1]) < |frame| && k == 1
  {
    if CmdSize(bad[1]) == |bad| {
      assert bad[..|bad|] == bad;
      ChecksumMismatch(frame, bad, k);
      assert false;
    }
  }

  /**
   * A frame with one corrupted byte is taken for a command exactly when the corrupted byte is
   * the id, the new id belongs to a shorter frame, an interrupt ends at that length, and the
   * checksum happens to match there. Every other corruption of one byte is rejected.
   */
  lemma CorruptedFrameTaken(frame: seq<bv8>, bad: seq<bv8>, k: nat, groups: seq<seq<RxWord>>)
    requires ValidFrame(frame) && DifferOnlyAt(frame, bad, k) && Words(groups) == AsWords(bad)
    ensures var n := CmdSize(bad[1]);
      OnGroups(IDLE_PARSER, groups).state == Received
      <==> k == 1 && BASE_CMD_LENGTH <= n < |frame| && CutAt(groups, n) && bad[0] == Crc8.Checksum(bad[1..n])
  {
    ReceivedExactlyWhen(IDLE_PARSER, bad, groups);
    var n := CmdSize(bad[1]);
    if FrameFirst(bad) { BadWholeInvalid(frame, bad, k); }
    if BASE_CMD_LENGTH <= n < |frame| {
      assert bad[..n][1..] == bad[1..n];
    }
  }

  const TORPEDO_TIMING: seq<bv8> := [0x5F, 0x07, 0x01, 0x00, 0x00, 0x07]
  const FIRE_TORPEDO: seq<bv8> := [0x5F, 0x06, 0x01]

  lemma Entries()
    ensures Crc8.Entry(0x07 ^ 0xDE) == 0x01 && Crc8.Entry(0x01 ^ 0x01) == 0x00 && Crc8.Entry(0x00 ^ 0x00) == 0x00
    ensures Crc8.Entry(0x07 ^ 0x00) == 0x15 && Crc8.Entry(0x06 ^ 0xDE) == 0x06 && Crc8.Entry(0x01 ^ 0x06) == 0x15
  {}

  lemma TimingRegister(start: seq<bv8>)
    requires start == []
    ensures Register(Crc8.CODE, Crc8.INITIAL_VALUE, start + [0x07] + [0x01] + [0x00] + [0x00] + [0x07]) == 0x15
  {
    Entries();
    Crc8.NextByte(start, 0x07, 0xDE, 0x01);
    Crc8.NextByte(start + [0x07], 0x01, 0x01, 0x00);
    Crc8.NextByte(start + [0x07] + [0x01], 0x00, 0x00, 0x00);
    Crc8.NextByte(start + [0x07] + [0x01] + [0x00], 0x00, 0x00, 0x00);
    Crc8.NextByte(start + [0x07] + [0x01] + [0x00] + [0x00], 0x07, 0x00, 0x15);
  }

  lemma FireRegister(start: seq<bv8>)
    requires start == []
    ensures Register(Crc8.CODE, Crc8.INITIAL_VALUE, start + [0x06] + [0x01]) == 0x15
  {
    Entries();
    Crc8.NextByte(start, 0x06, 0xDE, 0x06);
    Crc8.NextByte(start + [0x06], 0x01, 0x06, 0x15);
  }

  lemma BothFramesValid()
    ensures ValidFrame(TORPEDO_TIMING) && ValidFrame(FIRE_TORPEDO)
  {
    TimingRegister([]);
    FireRegister([]);
    assert TORPEDO_TIMING[1..] == [] + [0x07] + [0x01] + [0x00] + [0x00] + [0x07];
    assert FIRE_TORPEDO[1..] == [] + [0x06] + [0x01];
  }

  /**
   * It does happen: if the id of this command, which sets the first time of torpedo 1 to
   * 1792 microseconds, is corrupted from 7 to 6 and an interrupt ends after the third byte,
   * the board is told to fire torpedo 1.
   */
  lemma TimingTakenForFire() returns (bad: seq<bv8>, groups: seq<seq<RxWord>>)
    ensures ValidFrame(TORPEDO_TIMING) && DifferOnlyAt(TORPEDO_TIMING, bad, 1) && Words(groups) == AsWords(bad)
    ensures OnGroups(IDLE_PARSER, groups) == Parser(Received, FIRE_TORPEDO, 3)
  {
    BothFramesValid();
    bad := TORPEDO_TIMING[1 := 0x06];
    var ws := AsWords(bad);
    groups := [ws[..3], ws[3..]];
    assert groups[..1] == [ws[..3]] && [ws[..3]][..0] == [] && groups[..2] == groups;
    assert Words([ws[..3]]) == ws[..3];
    assert Words(groups) == ws;
    assert bad[..3] == FIRE_TORPEDO;
    GroupsStand(IDLE_PARSER, bad, groups);
  }
}
