/** The crash log of the safety library, updated in place at each boot. */
module CrashRecorder {
  import opened CrashLog
  import Crc16

  class Recorder {
    var crc: bv16
    var valid: nat
    var wrapped: bool
    var spare: nat
    var next: nat
    var counters: Counters
    const log: array<Entry>

    ghost function Abs(): CrashData
      reads this, log
    {
      CrashData(crc, valid, wrapped, spare, next, counters, log[..])
    }

    /** The RAM is whatever it was. */
    constructor (ram: CrashData)
      requires |ram.log| == ENTRIES
      ensures Abs() == ram
    {
      crc, valid, wrapped, spare, next, counters := ram.crc, ram.valid, ram.wrapped, ram.spare, ram.next, ram.counters;
      log := new Entry[ENTRIES](i requires 0 <= i < ENTRIES && |ram.log| == ENTRIES => ram.log[i]);
      new;
      assert log[..] == ram.log;
    }

    method CalcCrashDataCrc() returns (c: bv16)
      ensures c == Crc16.Checksum(Tail(Abs()))
    {
      c := Crc16.CalcRaw(Tail(CrashData(crc, valid, wrapped, spare, next, counters, log[..])));
    }

    method StoreCrc()
      modifies this`crc
      ensures Abs() == WithCrc(old(Abs()))
    {
      crc := CalcCrashDataCrc();
    }

    method Clear()
      requires log.Length == ENTRIES
      modifies this, log
      ensures Abs() == Empty()
    {
      crc, valid, wrapped, spare, next, counters := 0, 0, false, 0, 0, Counters(0, 0, 0, 0);
      for i := 0 to ENTRIES
        invariant crc == 0 && valid == 0 && !wrapped && spare == 0 && next == 0 && counters == Counters(0, 0, 0, 0)
        invariant forall k :: 0 <= k < i ==> log[k] == Entry(0, 0, 0, 0, 0)
      {
        log[i] := Entry(0, 0, 0, 0, 0);
      }
      assert log[..] == Empty().log;
    }

    method InitIfNeeded() returns (needed: bool)
      requires log.Length == ENTRIES
      modifies this, log
      ensures needed == NeedsInit(old(Abs())) && Abs() == Init(old(Abs()))
    {
      needed := true;
      if valid == VALID_MAGIC {
        var expected := CalcCrashDataCrc();
        if expected == crc {
          needed := false;
        }
      }
      if needed {
        Clear();
        valid := VALID_MAGIC;
        StoreCrc();
      }
    }

    method Count(hw: Hw)
      modifies this`counters
      ensures counters == Counted(old(counters), hw)
    {
      if !hw.watchdog {
        counters := Counters(0, 0, 0, 0);
      } else if hw.reason != IN_ROS_TRANSPORT_LOOP {
        if counters.total != COUNTER_MAX { counters := counters.(total := counters.total + 1); }
        if hw.reason == PANIC && counters.panics != COUNTER_MAX { counters := counters.(panics := counters.panics + 1); }
        if hw.reason == HARD_FAULT && counters.hardFaults != COUNTER_MAX {
          counters := counters.(hardFaults := counters.hardFaults + 1);
        }
        if hw.reason == ASSERT_FAIL && counters.assertFails != COUNTER_MAX {
          counters := counters.(assertFails := counters.assertFails + 1);
        }
      }
    }

    method StoreEntry(hw: Hw)
      requires next < log.Length
      modifies log
      ensures log[..] == old(log[..])[next := EntryFor(hw, old(log[next]))]
    {
      if hw.watchdog {
        log[next] := Entry(hw.reason, hw.scratch1, hw.scratch2, hw.uptime, hw.faults);
      } else {
        var kind := 0;
        if hw.reason == CLEAN_BOOT && hw.scratch1 == TYPE_SOFTWARE {
          kind := TYPE_SOFTWARE;
        } else if hw.reason == CLEAN_BOOT && hw.scratch1 == TYPE_USB {
          kind := TYPE_USB;
        } else {
          if hw.por { kind := TYPE_POR; }
          if hw.run { kind := TYPE_RUN; }
          if hw.psm { kind := TYPE_PSM; }
        }
        log[next] := log[next].(reason := CLEAN_BOOT, scratch1 := kind);
      }
    }

    method AdvanceNext()
      modifies this`next, this`wrapped
      ensures Abs() == Advance(old(Abs()))
    {
      if next == ENTRIES - 1 {
        next := 0;
        wrapped := true;
      } else {
        next := next + 1;
      }
    }

    /** The entry, the counters, the ring and the checksum. */
    method RecordBoot(hw: Hw) returns (crashed: bool)
      requires Shape(Abs())
      modifies this, log
      ensures var d := old(Abs());
        Abs() == WithCrc(Advance(d.(log := d.log[d.next := EntryFor(hw, d.log[d.next])], counters := Counted(d.counters, hw))))
      ensures crashed <==> hw.watchdog && counters.total > 0
    {
      StoreEntry(hw);
      Count(hw);
      crashed := hw.watchdog && counters.total != 0;
      AdvanceNext();
      StoreCrc();
    }

    /** Records the boot; a fault is raised for a corrupted log or a crash, but not after a clean boot. */
    method ProcessLastReset(hw: Hw) returns (fault: bool)
      requires log.Length == ENTRIES && Shape(Init(Abs()))
      modifies this, log
      ensures Abs() == Boot(old(Abs()), hw)
      ensures fault <==> hw.watchdog && (NeedsInit(old(Abs())) || counters.total > 0)
    {
      var needed := InitIfNeeded();
      var crashed := RecordBoot(hw);
      fault := (hw.watchdog && needed) || crashed;
    }

    /** Prints the entries newest first; the loop goes around the ring at most once. */
    method PrintCrashLog() returns (lines: seq<View>)
      requires Shape(Abs())
      ensures lines == Printed(next, wrapped, log[..])
    {
      lines := [];
      var i, go := next, true;
      while go
        invariant |lines| <= ENTRIES && (|lines| > next ==> wrapped)
        invariant i == (if |lines| <= next then next - |lines| else next + ENTRIES - |lines|)
        invariant go <==> |lines| == 0 || i != next
        invariant lines == Backwards(next, log[..], |lines|)
        decreases ENTRIES - |lines|, go
      {
        if i == 0 {
          if wrapped { i := ENTRIES; } else { break; }
        }
        i := i - 1;
        OneMore(next, log[..], |lines|);
        lines := lines + [ViewOf(log[i])];
        go := i != next;
      }
    }
  }

  lemma OneMore(next: nat, log: seq<Entry>, count: nat)
    requires |log| == ENTRIES && next < ENTRIES && count < ENTRIES
    ensures Backwards(next, log, count + 1) == Backwards(next, log, count) + [ViewOf(log[Slot(next, count)])]
  {}
}
