/** The kill switches that both boards share, and the lock on switches that are set by software. */
module KillSwitch {
  const KILL_SWITCH_TIMEOUT_US: nat := 500_000
  const FRAME_SIZE: nat := 32           // of the buffer that holds the name of the asserting node

  datatype Switch = Switch(enabled: bool, asserting: bool, needsUpdate: bool, timeout: nat, frame: seq<bv8>)

  datatype Safety = Safety(switches: seq<Switch>, initialized: bool, killed: bool, lastChange: nat)

  /** An enabled switch kills if it asserts it, or if it has not been updated in time. */
  predicate Kills(sw: Switch, now: nat) {
    sw.enabled && (sw.asserting || (sw.needsUpdate && sw.timeout < now))
  }

  /** As a precaution, no enabled switch at all counts as kill. */
  predicate MustKill(switches: seq<Switch>, now: nat) {
    || (forall i :: 0 <= i < |switches| ==> !switches[i].enabled)
    || (exists i :: 0 <= i < |switches| && Kills(switches[i], now))
  }

  function Updated(sw: Switch, asserting: bool, needsUpdate: bool, now: nat): Switch {
    sw.(enabled := true, asserting := asserting, needsUpdate := needsUpdate, timeout := now + KILL_SWITCH_TIMEOUT_US)
  }

  function Update(s: Safety, i: nat, asserting: bool, needsUpdate: bool, now: nat): Safety
    requires i < |s.switches|
  {
    var t := s.(switches := s.switches[i := Updated(s.switches[i], asserting, needsUpdate, now)]);
    if s.initialized && asserting then t.(killed := true, lastChange := now) else t
  }

  function Refresh(s: Safety, now: nat): Safety {
    var k := MustKill(s.switches, now);
    if k != s.killed then s.(killed := k, lastChange := now) else s
  }

  /** While safety is active, an enabled switch that asserts kill has killed the robot. */
  predicate Prompt(s: Safety) {
    s.initialized ==> forall i :: 0 <= i < |s.switches| && s.switches[i].enabled && s.switches[i].asserting ==> s.killed
  }

  lemma UpdatePrompt(s: Safety, i: nat, asserting: bool, needsUpdate: bool, now: nat)
    requires i < |s.switches| && Prompt(s)
    ensures Prompt(Update(s, i, asserting, needsUpdate, now))
  {}

  /** A tick makes the state what the switches say at that moment, and dates every change and no other moment. */
  lemma RefreshExact(s: Safety, now: nat)
    ensures Refresh(s, now).killed == MustKill(s.switches, now) && Refresh(s, now).switches == s.switches
    ensures Refresh(s, now).killed != s.killed ==> Refresh(s, now).lastChange == now
    ensures Refresh(s, now).killed == s.killed ==> Refresh(s, now).lastChange == s.lastChange
    ensures Prompt(Refresh(s, now))
  {}

  // ---- Names of nodes ----

  /** The C string at the start of the bytes. */
  function CStr(bytes: seq<bv8>): (s: seq<bv8>)
    ensures |s| <= |bytes| && s == bytes[..|s|] && 0 !in s
    ensures |s| == |bytes| || bytes[|s|] == 0
  {
    if bytes == [] || bytes[0] == 0 then [] else [bytes[0]] + CStr(bytes[1..])
  }

  /** strncmp of at most n characters finds no difference; a missing character reads as the terminator. */
  predicate StrnEqual(a: seq<bv8>, b: seq<bv8>, n: nat) {
    n == 0 ||
    var x, y := if a == [] then 0 else a[0], if b == [] then 0 else b[0];
    x == y && (x == 0 || StrnEqual(a[1..], b[1..], n - 1))
  }

  lemma {:induction false} StrnEqualIsSameString(a: seq<bv8>, b: seq<bv8>, n: nat)
    requires |CStr(a)| < n && |CStr(b)| < n
    ensures StrnEqual(a, b, n) <==> CStr(a) == CStr(b)
  {
    if a == [] || a[0] == 0 || b == [] || b[0] == 0 {
    } else {
      StrnEqualIsSameString(a[1..], b[1..], n - 1);
      assert CStr(a)[1..] == CStr(a[1..]) && CStr(b)[1..] == CStr(b[1..]);
    }
  }

  /** strncpy of size characters: what follows a terminator is zero. */
  function Padded(data: seq<bv8>): (p: seq<bv8>)
    ensures |p| == |data| && CStr(p) == CStr(data)
  {
    if data == [] then []
    else if data[0] == 0 then
      assert ([0] + seq(|data| - 1, _ => 0))[0] == 0;
      [0] + seq(|data| - 1, _ => 0)
    else
      assert ([data[0]] + Padded(data[1..]))[1..] == Padded(data[1..]);
      [data[0]] + Padded(data[1..])
  }

  /** The locking frame after a node has asserted kill: its name, a terminator, and what was there before. */
  function Locked(frame: seq<bv8>, sender: seq<bv8>): (f: seq<bv8>)
    requires |frame| == FRAME_SIZE && |sender| < FRAME_SIZE
    ensures |f| == FRAME_SIZE
  {
    Padded(sender) + [0] + frame[|sender| + 1..]
  }

  lemma {:induction false} CStrStops(s: seq<bv8>, rest: seq<bv8>)
    ensures CStr(s + [0] + rest) == CStr(s)
  {
    var t := s + [0] + rest;
    if s == [] || s[0] == 0 {
      assert t[0] == 0;
    } else {
      assert t[1..] == s[1..] + [0] + rest;
      CStrStops(s[1..], rest);
    }
  }

  lemma LockedNamesSender(frame: seq<bv8>, sender: seq<bv8>)
    requires |frame| == FRAME_SIZE && |sender| < FRAME_SIZE
    ensures CStr(Locked(frame, sender)) == CStr(sender)
  {
    CStrStops(Padded(sender), frame[|sender| + 1..]);
  }

  // ---- Kill messages from software ----

  datatype Message = Message(id: nat, sender: seq<bv8>, asserting: bool, needsUpdate: bool)

  /** The messages that are refused: a bad id, a name that is too long, or the release of another node's lock. */
  predicate Refused(s: Safety, physical: nat, m: Message) {
    || m.id >= |s.switches| || m.id == physical
    || |m.sender| >= FRAME_SIZE
    || (var sw := s.switches[m.id];
        sw.enabled && sw.asserting && !m.asserting && !StrnEqual(sw.frame, m.sender, FRAME_SIZE))
  }

  predicate FramesSized(s: Safety) {
    forall i :: 0 <= i < |s.switches| ==> |s.switches[i].frame| == FRAME_SIZE
  }

  function OnMessage(s: Safety, physical: nat, m: Message, now: nat): Safety
    requires FramesSized(s)
  {
    if Refused(s, physical, m) then s
    else
      var sw := s.switches[m.id];
      var locked := if m.asserting then sw.(frame := Locked(sw.frame, m.sender)) else sw;
      Update(s.(switches := s.switches[m.id := locked]), m.id, m.asserting, m.needsUpdate, now)
  }

  /** Who last asserted each switch. */
  type Owners = map<nat, seq<bv8>>

  /** A switch that asserts kill carries the name of the node that asserted it last. */
  predicate Owned(s: Safety, physical: nat, owners: Owners) {
    && FramesSized(s)
    && forall i :: 0 <= i < |s.switches| && i != physical && s.switches[i].enabled && s.switches[i].asserting ==>
      i in owners && CStr(s.switches[i].frame) == owners[i] && |owners[i]| < FRAME_SIZE
  }

  function NewOwners(s: Safety, physical: nat, m: Message, owners: Owners): Owners {
    if !Refused(s, physical, m) && m.asserting then owners[m.id := CStr(m.sender)] else owners
  }

  lemma MessageKeepsOwners(s: Safety, physical: nat, m: Message, now: nat, owners: Owners)
    requires Owned(s, physical, owners)
    ensures Owned(OnMessage(s, physical, m, now), physical, NewOwners(s, physical, m, owners))
  {
    if !Refused(s, physical, m) && m.asserting {
      LockedNamesSender(s.switches[m.id].frame, m.sender);
    }
  }

  /** A software kill is released by its most recent asserter, and by nobody else. */
  lemma ReleasedByOwner(s: Safety, physical: nat, m: Message, now: nat, owners: Owners, i: nat)
    requires Owned(s, physical, owners) && i < |s.switches| && i != physical
    requires s.switches[i].enabled && s.switches[i].asserting
    ensures !OnMessage(s, physical, m, now).switches[i].asserting
      <==> m.id == i && !m.asserting && |m.sender| < FRAME_SIZE && CStr(m.sender) == owners[i]
  {
    if m.id == i && |m.sender| < FRAME_SIZE {
      StrnEqualIsSameString(s.switches[i].frame, m.sender, FRAME_SIZE);
    }
  }
}
