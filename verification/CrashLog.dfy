/**
 * The crash log that survives resets in uninitialized RAM: a ring of the last boots with
 * counters, guarded by a checksum.
 */
module CrashLog {
  import Crc16
  import opened ByteCode

  const ENTRIES: nat := 24
  const VALID_MAGIC: nat := 0x5
  const COUNTER_MAX: nat := 0xFF

  const CLEAN_BOOT: nat := 0x103_5000
  const PANIC: nat := 0x103_5003
  const HARD_FAULT: nat := 0x103_5004
  const ASSERT_FAIL: nat := 0x103_5005
  const IN_ROS_TRANSPORT_LOOP: nat := 0x103_5006

  const TYPE_POR: nat := 0x719_3001
  const TYPE_RUN: nat := 0x719_3002
  const TYPE_PSM: nat := 0x719_3003
  const TYPE_SOFTWARE: nat := 0x719_3004
  const TYPE_USB: nat := 0x719_3005

  datatype Entry = Entry(reason: nat, scratch1: nat, scratch2: nat, uptime: nat, faults: nat)

  datatype Counters = Counters(total: nat, panics: nat, hardFaults: nat, assertFails: nat)

  datatype CrashData = CrashData(crc: bv16, valid: nat, wrapped: bool, spare: nat, next: nat, counters: Counters, log: seq<Entry>)

  // ---- Bytes and checksum ----

  function Byte(v: nat): bv8 {
    (v % 0x100) as bv8
  }

  function Word(v: nat): seq<bv8> {
    [Byte(v), Byte(v / 0x100), Byte(v / 0x1_0000), Byte(v / 0x100_0000)]
  }

  function EntryBytes(e: Entry): seq<bv8> {
    Word(e.reason) + Word(e.scratch1) + Word(e.scratch2) + Word(e.uptime) + Word(e.faults)
  }

  function LogBytes(log: seq<Entry>): seq<bv8> {
    if log == [] then [] else LogBytes(log[..|log| - 1]) + EntryBytes(log[|log| - 1])
  }

  /** Everything but the checksum. */
  function Tail(d: CrashData): seq<bv8> {
    [Byte(d.valid + (if d.wrapped then 0x10 else 0) + 0x20 * d.spare), Byte(d.next)]
    + [Byte(d.counters.total), Byte(d.counters.panics), Byte(d.counters.hardFaults), Byte(d.counters.assertFails)]
    + LogBytes(d.log)
  }

  function CrcBytes(crc: bv16): seq<bv8> {
    [(crc & 0xFF) as bv8, (crc >> 8) as bv8]
  }

  function Ram(d: CrashData): seq<bv8> {
    CrcBytes(d.crc) + Tail(d)
  }

  predicate Checked(d: CrashData) {
    d.crc == Crc16.Checksum(Tail(d))
  }

  function WithCrc(d: CrashData): (r: CrashData)
    ensures Checked(r) && r == d.(crc := r.crc)
  {
    var r := d.(crc := Crc16.Checksum(Tail(d)));
    assert Tail(r) == Tail(d);
    r
  }

  predicate NeedsInit(d: CrashData) {
    !(d.valid == VALID_MAGIC && Checked(d))
  }

  /** One corrupted byte anywhere in the retained data makes the next boot start a new log. */
  lemma CorruptionDetected(d: CrashData, bad: CrashData, k: nat)
    requires !NeedsInit(d) && DifferOnlyAt(Ram(d), Ram(bad), k)
    ensures NeedsInit(bad)
  {
    ChecksumMismatch(d.crc, Tail(d), bad.crc, Tail(bad), k);
  }

  lemma ChecksumMismatch(crc: bv16, tail: seq<bv8>, badCrc: bv16, badTail: seq<bv8>, k: nat)
    requires crc == Crc16.Checksum(tail) && DifferOnlyAt(CrcBytes(crc) + tail, CrcBytes(badCrc) + badTail, k)
    ensures badCrc != Crc16.Checksum(badTail)
  {
    var ram, bad := CrcBytes(crc) + tail, CrcBytes(badCrc) + badTail;
    if k < 2 {
      SameTail(CrcBytes(crc), tail, CrcBytes(badCrc), badTail, k);
      assert crc != badCrc;
    } else {
      assert ram[0] == bad[0] && ram[1] == bad[1];
      CrcFromBytes(crc, badCrc);
      TailDiffers(CrcBytes(crc), tail, badTail, k);
      Crc16.SingleByteErrorDetected(tail, badTail, k - 2);
    }
  }

  lemma SameTail(head: seq<bv8>, tail: seq<bv8>, badHead: seq<bv8>, badTail: seq<bv8>, k: nat)
    requires |head| == |badHead| == 2 && k < 2 && DifferOnlyAt(head + tail, badHead + badTail, k)
    ensures tail == badTail && head[k] != badHead[k]
  {
    assert (head + tail)[2..] == tail && (badHead + badTail)[2..] == badTail;
    assert (head + tail)[k] == head[k] && (badHead + badTail)[k] == badHead[k];
  }

  lemma TailDiffers(head: seq<bv8>, tail: seq<bv8>, badTail: seq<bv8>, k: nat)
    requires |head| == 2 <= k && DifferOnlyAt(head + tail, head + badTail, k)
    ensures DifferOnlyAt(tail, badTail, k - 2)
  {
    assert forall i :: 0 <= i < |tail| ==> tail[i] == (head + tail)[i + 2];
    assert forall i :: 0 <= i < |badTail| ==> badTail[i] == (head + badTail)[i + 2];
  }

  lemma CrcFromBytes(a: bv16, b: bv16)
    requires CrcBytes(a)[0] == CrcBytes(b)[0] && CrcBytes(a)[1] == CrcBytes(b)[1]
    ensures a == b
  {
    assert a == ((((a >> 8) as bv8) as bv16) << 8) | (((a & 0xFF) as bv8) as bv16);
    assert b == ((((b >> 8) as bv8) as bv16) << 8) | (((b & 0xFF) as bv8) as bv16);
  }

  // ---- One boot ----

  /** What the hardware tells at boot: whether the watchdog caused it, its registers, and the reset flags. */
  datatype Hw = Hw(watchdog: bool, reason: nat, scratch1: nat, scratch2: nat, uptime: nat, faults: nat,
                   por: bool, run: bool, psm: bool)

  function Empty(): CrashData {
    CrashData(0, 0, false, 0, 0, Counters(0, 0, 0, 0), seq(ENTRIES, _ => Entry(0, 0, 0, 0, 0)))
  }

  function Init(d: CrashData): CrashData {
    if NeedsInit(d) then WithCrc(Empty().(valid := VALID_MAGIC)) else d
  }

  function CleanType(hw: Hw): nat {
    if hw.reason == CLEAN_BOOT && hw.scratch1 == TYPE_SOFTWARE then TYPE_SOFTWARE
    else if hw.reason == CLEAN_BOOT && hw.scratch1 == TYPE_USB then TYPE_USB
    else if hw.psm then TYPE_PSM
    else if hw.run then TYPE_RUN
    else if hw.por then TYPE_POR
    else 0
  }

  /** A clean boot leaves the other fields of the entry as they were. */
  function EntryFor(hw: Hw, prior: Entry): Entry {
    if hw.watchdog then Entry(hw.reason, hw.scratch1, hw.scratch2, hw.uptime, hw.faults)
    else prior.(reason := CLEAN_BOOT, scratch1 := CleanType(hw))
  }

  function Bump(count: nat, again: bool): nat {
    if again && count != COUNTER_MAX then count + 1 else count
  }

  function Counted(c: Counters, hw: Hw): Counters {
    if !hw.watchdog then Counters(0, 0, 0, 0)
    else if hw.reason == IN_ROS_TRANSPORT_LOOP then c
    else Counters(Bump(c.total, true), Bump(c.panics, hw.reason == PANIC),
                  Bump(c.hardFaults, hw.reason == HARD_FAULT), Bump(c.assertFails, hw.reason == ASSERT_FAIL))
  }

  predicate Shape(d: CrashData) {
    |d.log| == ENTRIES && d.next < ENTRIES
  }

  /** The boot indexes the log exactly if it starts a new one or finds an index within it. */
  lemma BootIndexes(d: CrashData)
    requires |d.log| == ENTRIES
    ensures Shape(Init(d)) <==> NeedsInit(d) || d.next < ENTRIES
  {
    assert Shape(Empty());
  }

  /** The checksum does not rule out an index beyond the log: only a writer other than the boot could leave one. */
  lemma IndexBeyondLog() returns (d: CrashData)
    ensures |d.log| == ENTRIES && !NeedsInit(d) && !Shape(Init(d))
  {
    d := WithCrc(Empty().(valid := VALID_MAGIC, next := ENTRIES));
  }

  function Advance(d: CrashData): CrashData {
    if d.next == ENTRIES - 1 then d.(next := 0, wrapped := true) else d.(next := d.next + 1)
  }

  function Boot(d: CrashData, hw: Hw): (r: CrashData)
    requires Shape(Init(d))
    ensures Checked(r)
  {
    var i := Init(d);
    WithCrc(Advance(i.(log := i.log[i.next := EntryFor(hw, i.log[i.next])], counters := Counted(i.counters, hw))))
  }

  // ---- What the log says ----

  /** What is printed of an entry: of a clean boot only its type. */
  datatype View = Clean(kind: nat) | Crash(reason: nat, scratch1: nat, scratch2: nat, faults: nat, uptime: nat)

  function ViewOf(e: Entry): View {
    if e.reason == CLEAN_BOOT then Clean(e.scratch1) else Crash(e.reason, e.scratch1, e.scratch2, e.faults, e.uptime)
  }

  /** The record of a boot. */
  function Record(hw: Hw): View {
    if !hw.watchdog then Clean(CleanType(hw))
    else if hw.reason == CLEAN_BOOT then Clean(hw.scratch1)
    else Crash(hw.reason, hw.scratch1, hw.scratch2, hw.faults, hw.uptime)
  }

  /** The resets that the chip remembers, in the order in which a later one hides an earlier. */
  function ChipResets(hw: Hw): seq<nat> {
    (if hw.por then [TYPE_POR] else []) + (if hw.run then [TYPE_RUN] else []) + (if hw.psm then [TYPE_PSM] else [])
  }

  /** A clean boot is recorded as the restart that was announced, or else as the last reset that the chip remembers, if any. */
  lemma CleanBootKind(hw: Hw)
    requires !hw.watchdog
    ensures var announced := hw.reason == CLEAN_BOOT && (hw.scratch1 == TYPE_SOFTWARE || hw.scratch1 == TYPE_USB);
      var resets := ChipResets(hw);
      Record(hw) == Clean(if announced then hw.scratch1 else if resets == [] then 0 else resets[|resets| - 1])
  {
    var resets := ChipResets(hw);
    assert hw.psm ==> resets[|resets| - 1] == TYPE_PSM;
  }

  /** The last boots, newest first, as many as the log holds. */
  function Recent(hs: seq<Hw>): seq<View> {
    seq(if |hs| < ENTRIES then |hs| else ENTRIES, i requires 0 <= i < |hs| => Record(hs[|hs| - 1 - i]))
  }

  /** The k-th slot behind `next`, going around the ring. */
  function Slot(next: nat, k: nat): (i: nat)
    requires next < ENTRIES && k < ENTRIES
    ensures i < ENTRIES && i == (next + ENTRIES - 1 - k) % ENTRIES
  {
    if k < next then next - 1 - k else next + ENTRIES - 1 - k
  }

  function Backwards(next: nat, log: seq<Entry>, count: nat): (views: seq<View>)
    requires |log| == ENTRIES && next < ENTRIES && count <= ENTRIES
    ensures |views| == count
  {
    seq(count, k requires 0 <= k < count => ViewOf(log[Slot(next, k)]))
  }

  /** The entries from the one before `next` backwards, all the way around if the ring has wrapped. */
  function Printed(next: nat, wrapped: bool, log: seq<Entry>): (views: seq<View>)
    requires |log| == ENTRIES && next < ENTRIES
  {
    Backwards(next, log, if wrapped then ENTRIES else next)
  }

  // ---- Counting ----

  /** The crashes of one kind since the last clean boot. */
  function CrashesSinceClean(hs: seq<Hw>, kind: Hw -> bool): nat {
    if hs == [] || !hs[|hs| - 1].watchdog then 0
    else CrashesSinceClean(hs[..|hs| - 1], kind) + if kind(hs[|hs| - 1]) then 1 else 0
  }

  function Saturated(n: nat): nat {
    if n < COUNTER_MAX then n else COUNTER_MAX
  }

  predicate IsCrash(hw: Hw) { hw.reason != IN_ROS_TRANSPORT_LOOP }

  predicate IsPanic(hw: Hw) { hw.reason == PANIC }

  predicate IsHardFault(hw: Hw) { hw.reason == HARD_FAULT }

  predicate IsAssertFail(hw: Hw) { hw.reason == ASSERT_FAIL }

  function Counts(hs: seq<Hw>): Counters {
    Counters(Saturated(CrashesSinceClean(hs, IsCrash)), Saturated(CrashesSinceClean(hs, IsPanic)),
             Saturated(CrashesSinceClean(hs, IsHardFault)), Saturated(CrashesSinceClean(hs, IsAssertFail)))
  }

  // ---- Any number of boots ----

  /** The ring holds the records of the last boots. */
  predicate Describes(next: nat, wrapped: bool, log: seq<Entry>, hs: seq<Hw>) {
    && |log| == ENTRIES && next == |hs| % ENTRIES && (wrapped <==> |hs| >= ENTRIES)
    && forall k :: 0 <= k < |hs| && |hs| - ENTRIES <= k ==> ViewOf(log[k % ENTRIES]) == Record(hs[k])
  }

  /** The retained data describes the boots since the log was started. */
  predicate Retained(d: CrashData, hs: seq<Hw>) {
    && d.valid == VALID_MAGIC && Checked(d)
    && Describes(d.next, d.wrapped, d.log, hs) && d.counters == Counts(hs)
  }

  lemma CountsGrow(hs: seq<Hw>, hw: Hw)
    ensures Counts(hs + [hw]) == Counted(Counts(hs), hw)
  {
    assert (hs + [hw])[..|hs|] == hs;
  }

  lemma InitRetained(d: CrashData)
    requires NeedsInit(d)
    ensures Retained(Init(d), [])
  {
    var e := Empty().(valid := VALID_MAGIC);
    assert Init(d) == WithCrc(e);
  }

  /** The first boot is the same whether the log was started by it or before it. */
  lemma FirstBoot(d: CrashData, hw: Hw)
    requires NeedsInit(d)
    ensures Shape(Init(d)) && Boot(d, hw) == Boot(Init(d), hw)
  {
    InitRetained(d);
  }

  lemma SlotsDiffer(n: nat, k: nat)
    requires k < n && n - ENTRIES < k
    ensures k % ENTRIES != n % ENTRIES
  {}

  lemma RingGrows(next: nat, wrapped: bool, log: seq<Entry>, hs: seq<Hw>, hw: Hw)
    requires Describes(next, wrapped, log, hs)
    ensures Describes(if next == ENTRIES - 1 then 0 else next + 1, wrapped || next == ENTRIES - 1,
                      log[next := EntryFor(hw, log[next])], hs + [hw])
  {
    var n, all, grown := |hs|, hs + [hw], log[next := EntryFor(hw, log[next])];
    forall k | 0 <= k < |all| && |all| - ENTRIES <= k ensures ViewOf(grown[k % ENTRIES]) == Record(all[k]) {
      if k < n { SlotsDiffer(n, k); }
    }
  }

  lemma BootOfValid(d: CrashData, hw: Hw)
    requires d.valid == VALID_MAGIC && Checked(d) && Shape(d)
    ensures Init(d) == d
    ensures Boot(d, hw)
      == WithCrc(Advance(d.(log := d.log[d.next := EntryFor(hw, d.log[d.next])], counters := Counted(d.counters, hw))))
  {}

  lemma BootRetains(d: CrashData, hs: seq<Hw>, hw: Hw)
    requires Retained(d, hs)
    ensures Init(d) == d && Retained(Boot(d, hw), hs + [hw])
  {
    BootOfValid(d, hw);
    CountsGrow(hs, hw);
    RingGrows(d.next, d.wrapped, d.log, hs, hw);
  }

  lemma Snoc(hs: seq<Hw>, more: seq<Hw>)
    requires more != []
    ensures hs + more == hs + more[..|more| - 1] + [more[|more| - 1]]
  {}

  lemma NextBootRetains(d: CrashData, before: seq<Hw>, hw: Hw, all: seq<Hw>)
    requires Retained(d, before) && all == before + [hw]
    ensures Init(d) == d && Shape(d) && Retained(Boot(d, hw), all)
  {
    BootRetains(d, before, hw);
  }

  /** The data after a run of boots, with the RAM kept in between. */
  function Boots(d: CrashData, hs: seq<Hw>, more: seq<Hw>): (r: CrashData)
    requires Retained(d, hs)
    ensures Retained(r, hs + more)
  {
    if more == [] then
      assert hs + more == hs;
      d
    else
      var r := Boots(d, hs, more[..|more| - 1]);
      Snoc(hs, more);
      NextBootRetains(r, hs + more[..|more| - 1], more[|more| - 1], hs + more);
      Boot(r, more[|more| - 1])
  }

  lemma SlotOf(n: nat, i: nat)
    requires i < n && i < ENTRIES
    ensures Slot(n % ENTRIES, i) == (n - 1 - i) % ENTRIES
  {}

  lemma PrintedIsRecent(next: nat, wrapped: bool, log: seq<Entry>, hs: seq<Hw>)
    requires Describes(next, wrapped, log, hs)
    ensures Printed(next, wrapped, log) == Recent(hs)
  {
    var n, printed, recent := |hs|, Printed(next, wrapped, log), Recent(hs);
    forall i | 0 <= i < |recent| ensures printed[i] == recent[i] {
      SlotOf(n, i);
    }
  }

  /**
   * After any number of boots from RAM that did not hold a valid log: the checksum is
   * valid, the log printed newest first is exactly the last boots, at most 24, and the
   * counters are the saturated numbers of crashes since the last clean boot.
   */
  lemma LogAfterBoots(d: CrashData, hs: seq<Hw>)
    requires NeedsInit(d)
    ensures Retained(Init(d), [])
    ensures var r := Boots(Init(d), [], hs);
      Checked(r) && Shape(r) && Printed(r.next, r.wrapped, r.log) == Recent(hs) && r.counters == Counts(hs)
  {
    InitRetained(d);
    assert [] + hs == hs;
    var r := Boots(Init(d), [], hs);
    PrintedIsRecent(r.next, r.wrapped, r.log, hs);
  }
}
