/** Loading the payload of a UF2 file into the memory of a device, sector by sector. */
module FlashLoader {
  import opened RangeMap
  import opened Uf2

  const ROM_START: nat := 0x0000_0000
  const ROM_END: nat := 0x0000_4000
  const FLASH_START: nat := 0x1000_0000
  const FLASH_END: nat := 0x1100_0000
  const XIP_SRAM_BASE: nat := 0x1500_0000
  const XIP_SRAM_END: nat := 0x1500_4000
  const SRAM_START: nat := 0x2000_0000
  const SRAM_END: nat := 0x2004_2000
  const SRAM_UNSTRIPED_START: nat := 0x2100_0000
  const SRAM_UNSTRIPED_END: nat := 0x2104_0000

  const SECTOR: nat := 4096

  datatype MemoryType = Rom | Flash | Sram | SramUnstriped | XipSram | Invalid

  /** The ends count as part of each memory. */
  function GetMemoryType(a: nat): MemoryType {
    if ROM_START <= a <= ROM_END then Rom
    else if FLASH_START <= a <= FLASH_END then Flash
    else if SRAM_START <= a <= SRAM_END then Sram
    else if SRAM_UNSTRIPED_START <= a <= SRAM_UNSTRIPED_END then SramUnstriped
    else if XIP_SRAM_BASE <= a <= XIP_SRAM_END then XipSram
    else Invalid
  }

  predicate TransferAligned(a: nat) {
    var t := GetMemoryType(a);
    t != Invalid && !(t == Flash && a % PAGE_SIZE != 0)
  }

  // ---- What a load leaves behind ----

  function SectorOf(a: nat): Range {
    Range(a / SECTOR * SECTOR, a / SECTOR * SECTOR + SECTOR)
  }

  /** Whether the range has an address in the sector of a. */
  predicate Touches(r: Range, a: nat) {
    Overlap(SectorOf(a), r)
  }

  function ImageByte(src: Source, r: Range, a: nat, prior: bv8): bv8 {
    if GetMemoryType(r.from) == Flash then
      if !Touches(r, a) then prior else if r.Contains(a) then src.At(a) else 0
    else
      if r.Contains(a) then src.At(a) else prior
  }

  /** What is at address a after the ranges have been loaded in order. */
  function FinalByte(src: Source, ranges: seq<Range>, a: nat, prior: bv8): bv8 {
    if ranges == [] then prior
    else ImageByte(src, ranges[|ranges| - 1], a, FinalByte(src, ranges[..|ranges| - 1], a, prior))
  }

  /** The file and the map of its payload. */
  datatype Source = Source(file: seq<bv8>, entries: seq<Entry>) {
    function At(a: nat): bv8 { Payload(entries, file, a) }

    function Bytes(from: nat, size: nat): (bytes: seq<bv8>)
      ensures |bytes| == size
    {
      PayloadBytes(entries, file, from, size)
    }
  }

  predicate Loadable(r: Range) {
    var t := GetMemoryType(r.from);
    r.from < r.to && t == GetMemoryType(r.to) && t != Invalid && t != Rom
  }

  // ---- The device ----

  /** What a write leaves at address a; programming flash can only clear bits. */
  function WrittenByte(at: nat, data: seq<bv8>, a: nat, prior: bv8): bv8 {
    if !(at <= a < at + |data|) then prior
    else if GetMemoryType(at) == Flash then prior & data[a - at]
    else data[a - at]
  }

  datatype ReadBack = Bytes(bytes: seq<bv8>) | Unaligned

  class Device {
    var memory: seq<bv8>

    ghost predicate Valid()
      reads this
    {
      |memory| == SRAM_UNSTRIPED_END
    }

    method FlashErase(at: nat, size: nat)
      requires Valid() && FLASH_START <= at && at + size <= FLASH_END
      modifies this
      ensures Valid()
      ensures forall a :: 0 <= a < |memory| ==> memory[a] == if at <= a < at + size then 0xFF else old(memory)[a]
    {
      memory := memory[..at] + seq(size, _ => 0xFF) + memory[at + size..];
    }

    method WriteMemory(at: nat, data: seq<bv8>)
      requires Valid() && at + |data| <= |memory|
      modifies this
      ensures Valid()
      ensures forall a :: 0 <= a < |memory| ==> memory[a] == WrittenByte(at, data, a, old(memory)[a])
    {
      var before := memory;
      var stored := seq(|data|, i requires 0 <= i < |data| && at + i < |before| => WrittenByte(at, data, at + i, before[at + i]));
      memory := before[..at] + stored + before[at + |data|..];
      forall a | 0 <= a < |memory| ensures memory[a] == WrittenByte(at, data, a, before[a]) {
        if at <= a < at + |data| {
          assert memory[a] == stored[a - at];
        }
      }
    }

    /** Refuses what is not aligned to pages in flash, or lies in no memory. */
    method Write(at: nat, data: seq<bv8>) returns (ok: bool)
      requires Valid() && at + |data| <= |memory|
      modifies this
      ensures Valid()
      ensures ok <==> TransferAligned(at) && TransferAligned(at + |data|)
      ensures !ok ==> memory == old(memory)
      ensures ok ==> forall a :: 0 <= a < |memory| ==> memory[a] == WrittenByte(at, data, a, old(memory)[a])
    {
      ok := TransferAligned(at) && TransferAligned(at + |data|);
      if ok { WriteMemory(at, data); }
    }

    /** An unaligned span of flash is read in whole pages and cut out. */
    method ReadMemory(at: nat, size: nat) returns (res: ReadBack)
      requires Valid() && at + size <= |memory|
      ensures res == if (TransferAligned(at) && TransferAligned(at + size)) || GetMemoryType(at) == Flash
        then Bytes(memory[at..at + size]) else Unaligned
    {
      if TransferAligned(at) && TransferAligned(at + size) {
        return Bytes(memory[at..at + size]);
      } else if GetMemoryType(at) == Flash {
        var alignedStart := at / PAGE_SIZE * PAGE_SIZE;
        var alignedEnd := (at + size + PAGE_SIZE - 1) / PAGE_SIZE * PAGE_SIZE;
        PagesWithin(at + size);
        var buffer := memory[alignedStart..alignedEnd];
        SliceOfSlice(memory, alignedStart, alignedEnd, at, at + size);
        return Bytes(buffer[at - alignedStart..at + size - alignedStart]);
      }
      return Unaligned;
    }
  }

  lemma SliceOfSlice(s: seq<bv8>, i: nat, j: nat, k: nat, l: nat)
    requires i <= k <= l <= j <= |s|
    ensures s[i..j][k - i..l - i] == s[k..l]
  {
    var t := s[i..j];
    assert forall x :: 0 <= x < |t| ==> t[x] == s[i + x];
    assert forall x {:trigger s[k + x]} :: 0 <= x < l - k ==> t[k - i..l - i][x] == s[k + x];
  }

  lemma PagesWithin(end: nat)
    requires end <= SRAM_UNSTRIPED_END
    ensures end <= (end + PAGE_SIZE - 1) / PAGE_SIZE * PAGE_SIZE <= SRAM_UNSTRIPED_END
  {}

  // ---- Loading ----

  datatype LoadResult = Loaded | BadBlocks(reason: InsertResult) | BadRange | WriteRefused | VerificationFailed

  class Loader {
    const file: seq<bv8>
    const rmap: RangeMap
    const device: Device

    constructor (file: seq<bv8>, rmap: RangeMap, device: Device)
      ensures this.file == file && this.rmap == rmap && this.device == device
    {
      this.file, this.rmap, this.device := file, rmap, device;
    }

    ghost function Src(): Source
      reads rmap
    {
      Source(file, rmap.entries)
    }

    ghost predicate Valid()
      reads rmap, device
    {
      Ordered(rmap.entries) && InFile(rmap.entries, file) && device.Valid()
    }

    /** What goes into the sector of base: the payload of [base, base + thisBatch) that lies in it, between zeros. */
    method SectorBuffer(base: nat, thisBatch: nat) returns (buffer: seq<bv8>, next: nat)
      requires Ordered(rmap.entries) && InFile(rmap.entries, file)
      requires 0 < thisBatch <= SECTOR && SpanCovered(rmap.entries, base, thisBatch)
      ensures SectorOf(base).from <= base < next <= SectorOf(base).to
      ensures |buffer| == SECTOR && next == SectorOf(base).Clamp(base + thisBatch)
      ensures forall i :: 0 <= i < SECTOR ==> buffer[i] == SectorByte(Src(), base, next, SectorOf(base).from + i)
    {
      var alignedRange := SectorOf(base);
      var readRange := Range(base, base + thisBatch).Intersect(alignedRange);
      var res := ReadSpan(file, rmap, readRange.from, readRange.to - readRange.from);
      assert res.Read?;
      buffer := seq(readRange.from - alignedRange.from, _ => 0) + res.bytes + seq(alignedRange.to - readRange.to, _ => 0);
      next := readRange.to;
    }

    /** After the erase, programming stores the whole buffer. */
    method EraseAndProgram(at: nat, buffer: seq<bv8>) returns (ok: bool)
      requires device.Valid() && at % SECTOR == 0 && |buffer| == SECTOR && FLASH_START <= at && at + SECTOR <= FLASH_END
      modifies device
      ensures device.Valid() && ok
      ensures forall a :: 0 <= a < |device.memory| ==>
        device.memory[a] == if at <= a < at + SECTOR then buffer[a - at] else old(device.memory)[a]
    {
      device.FlashErase(at, SECTOR);
      ghost var erased := device.memory;
      SectorAligned(at);
      ok := device.Write(at, buffer);
      Programmed(erased, device.memory, at, buffer);
    }

    method WriteSector(base: nat, thisBatch: nat) returns (ok: bool, next: nat)
      requires Valid() && 0 < thisBatch <= SECTOR && FLASH_START <= base && base + thisBatch <= FLASH_END
      requires SpanCovered(rmap.entries, base, thisBatch)
      modifies device
      ensures Valid() && ok && next == SectorOf(base).Clamp(base + thisBatch)
      ensures forall a :: 0 <= a < |device.memory| ==>
        device.memory[a] == if SectorOf(base).Contains(a) then SectorByte(Src(), base, next, a) else old(device.memory)[a]
    {
      var buffer;
      buffer, next := SectorBuffer(base, thisBatch);
      ok := EraseAndProgram(SectorOf(base).from, buffer);
      forall a: nat | SectorOf(base).Contains(a) ensures device.memory[a] == SectorByte(Src(), base, next, a) {
        assert buffer[a - SectorOf(base).from] == SectorByte(Src(), base, next, SectorOf(base).from + (a - SectorOf(base).from));
      }
    }

    /** One round of the flash half of the load loop. */
    method SweepSector(r: Range, base: nat, ghost done: nat, ghost before: seq<bv8>) returns (ok: bool, next: nat)
      requires Valid() && Loadable(r) && GetMemoryType(r.from) == Flash
      requires SpanCovered(rmap.entries, r.from, r.to - r.from)
      requires Sweeping(r, done, base) && base < r.to && Swept(Src(), r, done, before, device.memory)
      modifies device
      ensures Valid() && ok && base < next && Sweeping(r, done + SECTOR, next)
      ensures Swept(Src(), r, done + SECTOR, before, device.memory)
    {
      InFlash(r, base);
      var thisBatch := if r.to - base < SECTOR then r.to - base else SECTOR;
      SubSpan(rmap.entries, r, base, thisBatch);
      ghost var swept := device.memory;
      ok, next := WriteSector(base, thisBatch);
      SweepOneMore(Src(), r, done, base, next, before, swept, device.memory);
      NextBase(r, done, base, next);
    }

    /** The flash half of the load loop; it ends for every start, aligned or not. */
    method LoadFlashRange(r: Range) returns (ok: bool)
      requires Valid() && Loadable(r) && GetMemoryType(r.from) == Flash
      requires SpanCovered(rmap.entries, r.from, r.to - r.from)
      modifies device
      ensures Valid() && ok
      ensures forall a :: 0 <= a < |device.memory| ==> device.memory[a] == ImageByte(Src(), r, a, old(device.memory)[a])
    {
      ok := true;
      var base := r.from;
      ghost var done: nat := SectorOf(r.from).from;
      while base < r.to && ok
        invariant Valid() && ok && Sweeping(r, done, base)
        invariant Swept(Src(), r, done, old(device.memory), device.memory)
        decreases r.to - base
      {
        ok, base := SweepSector(r, base, done, old(device.memory));
        done := done + SECTOR;
      }
      SweptIsImage(Src(), r, done, base, old(device.memory), device.memory);
    }

    method LoadRamRange(r: Range) returns (ok: bool)
      requires Valid() && Loadable(r) && GetMemoryType(r.from) != Flash
      requires SpanCovered(rmap.entries, r.from, r.to - r.from)
      modifies device
      ensures Valid() && ok
      ensures forall a :: 0 <= a < |device.memory| ==> device.memory[a] == ImageByte(Src(), r, a, old(device.memory)[a])
    {
      ok := true;
      var base := r.from;
      while base < r.to && ok
        invariant Valid() && ok && r.from <= base <= r.to
        invariant forall a :: 0 <= a < |device.memory| ==>
          device.memory[a] == if r.from <= a < base then Src().At(a) else old(device.memory)[a]
        decreases r.to - base
      {
        var thisBatch := if r.to - base < SECTOR then r.to - base else SECTOR;
        SubSpan(rmap.entries, r, base, thisBatch);
        var res := ReadSpan(file, rmap, base, thisBatch);
        ok := device.Write(base, res.bytes);
        base := base + thisBatch;
      }
    }

    method LoadRange(r: Range) returns (ok: bool)
      requires Valid() && Loadable(r) && SpanCovered(rmap.entries, r.from, r.to - r.from)
      modifies device
      ensures Valid() && ok
      ensures forall a :: 0 <= a < |device.memory| ==> device.memory[a] == ImageByte(Src(), r, a, old(device.memory)[a])
    {
      if GetMemoryType(r.from) == Flash {
        ok := LoadFlashRange(r);
      } else {
        ok := LoadRamRange(r);
      }
    }

    /** Compares the device with the file, and stops at the first difference. */
    method VerifyRange(r: Range) returns (ok: bool)
      requires Valid() && Loadable(r) && SpanCovered(rmap.entries, r.from, r.to - r.from)
      ensures ok <==> forall a :: r.from <= a < r.to ==> device.memory[a] == Src().At(a)
    {
      ok := true;
      var base := r.from;
      while base < r.to && ok
        invariant r.from <= base
        invariant ok <==> forall a :: r.from <= a < base && a < r.to ==> device.memory[a] == Src().At(a)
        decreases r.to - base, ok
      {
        var thisBatch := if r.to - base < SECTOR then r.to - base else SECTOR;
        SubSpan(rmap.entries, r, base, thisBatch);
        var expected := ReadSpan(file, rmap, base, thisBatch);
        var found := device.ReadMemory(base, thisBatch);
        ok := SameBytes(expected.bytes, found.bytes);
        BatchSame(Src(), device.memory, base, thisBatch);
        base := base + SECTOR;
      }
    }
  }

  method SameBytes(a: seq<bv8>, b: seq<bv8>) returns (same: bool)
    requires |a| == |b|
    ensures same <==> a == b
  {
    for i := 0 to |a|
      invariant a[..i] == b[..i]
    {
      if a[i] != b[i] { return false; }
    }
    assert a == a[..|a|] && b == b[..|b|];
    return true;
  }

  lemma BatchSame(src: Source, memory: seq<bv8>, base: nat, size: nat)
    requires base + size <= |memory|
    ensures src.Bytes(base, size) == memory[base..base + size]
      <==> forall a :: base <= a < base + size ==> memory[a] == src.At(a)
  {
    var bytes, found := src.Bytes(base, size), memory[base..base + size];
    if bytes == found {
      forall a | base <= a < base + size ensures memory[a] == src.At(a) {
        assert bytes[a - base] == found[a - base];
      }
    }
  }

  /** All sectors of the range below `done` hold its payload and zeros, and nothing else has changed. */
  ghost predicate Swept(src: Source, r: Range, done: nat, before: seq<bv8>, after: seq<bv8>) {
    && |before| == |after|
    && forall a :: 0 <= a < |after| ==>
      after[a] == if SectorOf(r.from).from <= a < done then SectorByte(src, r.from, r.to, a) else before[a]
  }

  lemma SweepOneMore(src: Source, r: Range, done: nat, base: nat, next: nat,
                     before: seq<bv8>, swept: seq<bv8>, after: seq<bv8>)
    requires Swept(src, r, done, before, swept) && |after| == |swept|
    requires SectorOf(r.from).from <= done && base < r.to && base == r.Clamp(done) && SectorOf(base).from == done
    requires next == SectorOf(base).Clamp(base + if r.to - base < SECTOR then r.to - base else SECTOR)
    requires forall a :: 0 <= a < |after| ==>
      after[a] == if SectorOf(base).Contains(a) then SectorByte(src, base, next, a) else swept[a]
    ensures Swept(src, r, done + SECTOR, before, after)
  {}

  lemma SubSpan(entries: seq<Entry>, r: Range, from: nat, size: nat)
    requires r.from <= from && from + size <= r.to && SpanCovered(entries, r.from, r.to - r.from)
    ensures SpanCovered(entries, from, size)
  {}

  /** The loop is at `base`, and all sectors of the range below `done` have been swept. */
  predicate Sweeping(r: Range, done: nat, base: nat) {
    && r.from < r.to && base == r.Clamp(done) && done % SECTOR == 0
    && SectorOf(r.from).from <= done <= SectorOf(r.to - 1).to
    && (base < r.to ==> SectorOf(base).from == done)
  }

  lemma InFlash(r: Range, base: nat)
    requires Loadable(r) && GetMemoryType(r.from) == Flash && r.from <= base < r.to
    ensures FLASH_START <= base && r.to <= FLASH_END
  {}

  lemma NextBase(r: Range, done: nat, base: nat, next: nat)
    requires Sweeping(r, done, base) && base < r.to
    requires next == SectorOf(base).Clamp(base + if r.to - base < SECTOR then r.to - base else SECTOR)
    ensures base < next && Sweeping(r, done + SECTOR, next)
  {}

  /** The sectors swept are those that the range touches. */
  lemma SweptIsTouched(r: Range, done: nat, a: nat)
    requires r.from < r.to <= done && done % SECTOR == 0 && done <= SectorOf(r.to - 1).to
    ensures SectorOf(r.from).from <= a < done <==> Touches(r, a)
  {}

  lemma SweptIsImage(src: Source, r: Range, done: nat, base: nat, before: seq<bv8>, after: seq<bv8>)
    requires Swept(src, r, done, before, after) && GetMemoryType(r.from) == Flash
    requires Sweeping(r, done, base) && base >= r.to
    ensures forall a :: 0 <= a < |after| ==> after[a] == ImageByte(src, r, a, before[a])
  {
    forall a | 0 <= a < |after| ensures after[a] == ImageByte(src, r, a, before[a]) {
      SweptIsTouched(r, done, a);
    }
  }

  function SectorByte(src: Source, from: nat, to: nat, a: nat): bv8 {
    if from <= a < to then src.At(a) else 0
  }

  lemma SectorAligned(at: nat)
    requires at % SECTOR == 0 && FLASH_START <= at && at + SECTOR <= FLASH_END
    ensures TransferAligned(at) && TransferAligned(at + SECTOR) && GetMemoryType(at) == Flash
  {}

  lemma AndOnes(b: bv8)
    ensures 0xFF & b == b
  {}

  /** Programming erased bytes stores them. */
  lemma Programmed(erased: seq<bv8>, after: seq<bv8>, at: nat, data: seq<bv8>)
    requires GetMemoryType(at) == Flash && at + |data| <= |erased| == |after|
    requires forall a :: at <= a < at + |data| ==> erased[a] == 0xFF
    requires forall a :: 0 <= a < |after| ==> after[a] == WrittenByte(at, data, a, erased[a])
    ensures forall a :: at <= a < at + |data| ==> after[a] == data[a - at]
  {
    forall a | at <= a < at + |data| ensures after[a] == data[a - at] { AndOnes(data[a - at]); }
  }

  // ---- The whole file ----

  ghost predicate IsImage(src: Source, ranges: seq<Range>, before: seq<bv8>, after: seq<bv8>) {
    |before| == |after| && forall a :: 0 <= a < |after| ==> after[a] == FinalByte(src, ranges, a, before[a])
  }

  lemma ImageGrows(src: Source, ranges: seq<Range>, k: nat, before: seq<bv8>, mid: seq<bv8>, after: seq<bv8>)
    requires k < |ranges| && IsImage(src, ranges[..k], before, mid) && |after| == |mid|
    requires forall a :: 0 <= a < |after| ==> after[a] == ImageByte(src, ranges[k], a, mid[a])
    ensures IsImage(src, ranges[..k + 1], before, after)
  {
    assert ranges[..k + 1][..k] == ranges[..k];
  }

  lemma ImageHoldsRange(src: Source, r: Range, before: seq<bv8>, after: seq<bv8>)
    requires |before| == |after| && forall a :: 0 <= a < |after| ==> after[a] == ImageByte(src, r, a, before[a])
    requires Loadable(r) && |after| == SRAM_UNSTRIPED_END
    ensures forall a :: r.from <= a < r.to ==> after[a] == src.At(a)
  {
    forall a | r.from <= a < r.to ensures after[a] == src.At(a) {
      assert SectorOf(a).Contains(a);
    }
  }

  /** The ranges that will be written: sorted, apart from each other, and covering what the file covers. */
  ghost predicate Plan(ranges: seq<Range>, entries: seq<Entry>) {
    Separated(ranges) && forall a: nat :: InRanges(ranges, a) <==> Covered(entries, a)
  }

  lemma RangesCover(entries: seq<Entry>)
    requires Ordered(entries)
    ensures Sorted(RangesOf(entries))
    ensures forall a: nat :: InRanges(RangesOf(entries), a) <==> Covered(entries, a)
  {
    forall a: nat ensures InRanges(RangesOf(entries), a) <==> Covered(entries, a) {
      if InRanges(RangesOf(entries), a) {
        var i :| 0 <= i < |entries| && RangesOf(entries)[i].Contains(a);
        assert entries[i].range.Contains(a);
      }
      if Covered(entries, a) {
        var i :| 0 <= i < |entries| && entries[i].range.Contains(a);
        assert RangesOf(entries)[i].Contains(a);
      }
    }
  }

  lemma PlannedSpan(ranges: seq<Range>, entries: seq<Entry>, k: nat)
    requires Plan(ranges, entries) && k < |ranges|
    ensures SpanCovered(entries, ranges[k].from, ranges[k].to - ranges[k].from)
  {
    forall a: nat | ranges[k].from <= a < ranges[k].to ensures Covered(entries, a) {
      assert ranges[k].Contains(a);
    }
  }

  method PlanRanges(rmap: RangeMap) returns (ranges: seq<Range>)
    requires Ordered(rmap.entries)
    ensures Plan(ranges, rmap.entries)
  {
    var all := rmap.Ranges();
    RangesCover(rmap.entries);
    ranges := Coalesce(all);
  }

  /** Nothing is written unless every range lies in one writable memory. */
  method CheckRanges(ranges: seq<Range>) returns (ok: bool)
    requires Separated(ranges)
    ensures ok <==> forall i :: 0 <= i < |ranges| ==> Loadable(ranges[i])
  {
    for k := 0 to |ranges|
      invariant forall i :: 0 <= i < k ==> Loadable(ranges[i])
    {
      var t1, t2 := GetMemoryType(ranges[k].from), GetMemoryType(ranges[k].to);
      if t1 != t2 || t1 == Invalid || t1 == Rom { return false; }
    }
    return true;
  }

  /** Loads the ranges in order; each is verified right after it was written. */
  method LoadRanges(loader: Loader, ranges: seq<Range>, verify: bool) returns (res: LoadResult)
    requires loader.Valid() && Plan(ranges, loader.rmap.entries)
    requires forall i :: 0 <= i < |ranges| ==> Loadable(ranges[i])
    modifies loader.device
    ensures loader.Valid() && res == Loaded
    ensures IsImage(loader.Src(), ranges, old(loader.device.memory), loader.device.memory)
  {
    ghost var src := loader.Src();
    for k := 0 to |ranges|
      invariant loader.Valid() && IsImage(src, ranges[..k], old(loader.device.memory), loader.device.memory)
    {
      PlannedSpan(ranges, loader.rmap.entries, k);
      ghost var mid := loader.device.memory;
      var ok := loader.LoadRange(ranges[k]);
      ImageGrows(src, ranges, k, old(loader.device.memory), mid, loader.device.memory);
      if verify {
        ImageHoldsRange(src, ranges[k], mid, loader.device.memory);
        ok := loader.VerifyRange(ranges[k]);
        if !ok { return VerificationFailed; }
      }
    }
    assert ranges[..|ranges|] == ranges;
    return Loaded;
  }

  /**
   * Loads a file. A file with overlapping blocks, or with a range outside the writable
   * memories, changes nothing; any other file is loaded, and verification succeeds.
   */
  method LoadFile(file: seq<bv8>, device: Device, verify: bool) returns (res: LoadResult, rmap: RangeMap, ranges: seq<Range>)
    requires device.Valid()
    modifies device
    ensures device.Valid() && fresh(rmap) && Ordered(rmap.entries)
    ensures res.BadBlocks? <==> !Consistent(AllBlocks(file))
    ensures !res.BadBlocks? ==> multiset(rmap.entries) == multiset(AllBlocks(file)) && Plan(ranges, rmap.entries)
    ensures res == BadRange ==> exists i :: 0 <= i < |ranges| && !Loadable(ranges[i])
    ensures res == Loaded ==> forall i :: 0 <= i < |ranges| ==> Loadable(ranges[i])
    ensures res.BadBlocks? || res == BadRange || res == Loaded
    ensures if res == Loaded then IsImage(Source(file, rmap.entries), ranges, old(device.memory), device.memory)
      else device.memory == old(device.memory)
  {
    ranges := [];
    var built;
    rmap, built := BuildMap(file);
    if built != Inserted { return BadBlocks(built), rmap, ranges; }
    MapInFile(file, rmap.entries);
    ranges := PlanRanges(rmap);
    var ok := CheckRanges(ranges);
    if !ok { return BadRange, rmap, ranges; }
    var loader := new Loader(file, rmap, device);
    res := LoadRanges(loader, ranges, verify);
  }

  lemma MapInFile(file: seq<bv8>, entries: seq<Entry>)
    requires Consistent(AllBlocks(file)) && multiset(entries) == multiset(AllBlocks(file))
    ensures InFile(entries, file)
  {
    BlocksInFile(file, |file| / BLOCK_SIZE);
    forall e | e in entries ensures e.offset + e.range.to <= |file| + e.range.from {
      assert e in multiset(entries);
    }
  }

  // ---- What the image is ----

  predicate Affects(r: Range, a: nat) {
    if GetMemoryType(r.from) == Flash then Touches(r, a) else r.Contains(a)
  }

  /** Only the last range that affects an address counts. */
  lemma {:induction false} LastRangeWins(src: Source, ranges: seq<Range>, k: nat, a: nat, prior: bv8)
    requires k < |ranges| && Affects(ranges[k], a)
    requires forall j :: k < j < |ranges| ==> !Affects(ranges[j], a)
    ensures FinalByte(src, ranges, a, prior) == if ranges[k].Contains(a) then src.At(a) else 0
  {
    var n := |ranges| - 1;
    if k < n {
      assert forall j :: 0 <= j < n ==> ranges[..n][j] == ranges[j];
      LastRangeWins(src, ranges[..n], k, a, prior);
    }
  }

  lemma {:induction false} UnaffectedKept(src: Source, ranges: seq<Range>, a: nat, prior: bv8)
    requires forall j :: 0 <= j < |ranges| ==> !Affects(ranges[j], a)
    ensures FinalByte(src, ranges, a, prior) == prior
  {
    if ranges != [] {
      var n := |ranges| - 1;
      assert forall j :: 0 <= j < n ==> ranges[..n][j] == ranges[j];
      UnaffectedKept(src, ranges[..n], a, prior);
    }
  }

  /** Address a of range k is in a sector that a later range erases. */
  predicate ErasedLater(ranges: seq<Range>, k: nat, a: nat) {
    exists j :: k < j < |ranges| && Affects(ranges[j], a)
  }

  lemma {:induction false} LastAffecting(ranges: seq<Range>, a: nat, k: nat, n: nat) returns (last: nat)
    requires k < n <= |ranges| && Affects(ranges[k], a)
    ensures k <= last < n && Affects(ranges[last], a)
    ensures forall j :: last < j < n ==> !Affects(ranges[j], a)
    decreases n - k
  {
    if j :| k < j < n && Affects(ranges[j], a) {
      last := LastAffecting(ranges, a, j, n);
    } else {
      last := k;
    }
  }

  /** A payload byte ends up in memory, unless a later range shares its sector: then the byte ends up zero. */
  lemma PayloadByteLoaded(src: Source, ranges: seq<Range>, k: nat, a: nat, prior: bv8)
    requires Separated(ranges) && k < |ranges| && ranges[k].Contains(a)
    ensures FinalByte(src, ranges, a, prior) == if ErasedLater(ranges, k, a) then 0 else src.At(a)
  {
    assert SectorOf(a).Contains(a);
    var last := LastAffecting(ranges, a, k, |ranges|);
    LastRangeWins(src, ranges, last, a, prior);
    if last > k { assert !ranges[last].Contains(a); }
  }

  ghost predicate AllPayloadLoaded(src: Source, ranges: seq<Range>, before: seq<bv8>) {
    forall k, a :: 0 <= k < |ranges| && 0 <= a < |before| && ranges[k].Contains(a) ==>
      FinalByte(src, ranges, a, before[a]) == src.At(a)
  }

  /** The load puts every payload byte in place exactly when each byte that a later range erases is zero anyway. */
  lemma LoadedExactlyWhen(src: Source, ranges: seq<Range>, before: seq<bv8>)
    requires Separated(ranges)
    ensures AllPayloadLoaded(src, ranges, before) <==>
      forall k, a :: 0 <= k < |ranges| && 0 <= a < |before| && ranges[k].Contains(a) && ErasedLater(ranges, k, a) ==>
        src.At(a) == 0
  {
    forall k, a | 0 <= k < |ranges| && 0 <= a < |before| && ranges[k].Contains(a)
      ensures FinalByte(src, ranges, a, before[a]) == if ErasedLater(ranges, k, a) then 0 else src.At(a)
    {
      PayloadByteLoaded(src, ranges, k, a, before[a]);
    }
  }

  /** It happens: the second of two ranges in one sector erases a byte of the first. */
  lemma SharedSectorErased(prior: bv8) returns (src: Source, ranges: seq<Range>)
    ensures Ordered(src.entries) && Plan(ranges, src.entries) && |ranges| == 2 && Loadable(ranges[0]) && Loadable(ranges[1])
    ensures ranges[0].Contains(FLASH_START) && src.At(FLASH_START) == 1
    ensures FinalByte(src, ranges, FLASH_START, prior) == 0
  {
    var first, second := Range(FLASH_START, FLASH_START + 0x100), Range(FLASH_START + 0x200, FLASH_START + 0x300);
    src, ranges := Source(seq(0x200, _ => 1), [Entry(first, 0), Entry(second, 0x100)]), [first, second];
    assert RangesOf(src.entries) == ranges;
    RangesCover(src.entries);
    LookupCovered(src.entries, FLASH_START, 0);
    assert SectorOf(FLASH_START) == Range(FLASH_START, FLASH_START + SECTOR);
    LastRangeWins(src, ranges, 1, FLASH_START, prior);
  }

  /** No flash sector holds parts of two ranges. */
  ghost predicate NoSharedSector(ranges: seq<Range>) {
    forall i, j, a: nat :: 0 <= i < j < |ranges| && GetMemoryType(ranges[j].from) == Flash && ranges[i].Contains(a)
      ==> !Touches(ranges[j], a)
  }

  lemma NotErasedLater(ranges: seq<Range>, k: nat, a: nat)
    requires Separated(ranges) && NoSharedSector(ranges) && k < |ranges| && ranges[k].Contains(a)
    ensures !ErasedLater(ranges, k, a)
  {
    forall j | k < j < |ranges| ensures !Affects(ranges[j], a) {}
  }

  /**
   * If no flash sector holds parts of two ranges, the load leaves every payload byte at its
   * address, zero in the rest of each touched sector, and everything else as it was.
   */
  lemma ImageWithoutSharedSectors(src: Source, ranges: seq<Range>, a: nat, prior: bv8)
    requires Separated(ranges) && NoSharedSector(ranges)
    ensures InRanges(ranges, a) ==> FinalByte(src, ranges, a, prior) == src.At(a)
    ensures !InRanges(ranges, a) && (exists k :: 0 <= k < |ranges| && Affects(ranges[k], a))
      ==> FinalByte(src, ranges, a, prior) == 0
    ensures !(exists k :: 0 <= k < |ranges| && Affects(ranges[k], a)) ==> FinalByte(src, ranges, a, prior) == prior
  {
    if InRanges(ranges, a) {
      var k :| 0 <= k < |ranges| && ranges[k].Contains(a);
      PayloadByteLoaded(src, ranges, k, a, prior);
      NotErasedLater(ranges, k, a);
    } else if k :| 0 <= k < |ranges| && Affects(ranges[k], a) {
      var last := LastAffecting(ranges, a, k, |ranges|);
      LastRangeWins(src, ranges, last, a, prior);
    } else {
      UnaffectedKept(src, ranges, a, prior);
    }
  }

  /** In terms of the file: the bytes of each block end up at the addresses the block names. */
  lemma BlockByteLoaded(file: seq<bv8>, entries: seq<Entry>, ranges: seq<Range>, k: nat, a: nat, prior: bv8)
    requires Consistent(AllBlocks(file)) && Ordered(entries) && multiset(entries) == multiset(AllBlocks(file))
    requires Plan(ranges, entries) && NoSharedSector(ranges)
    requires k < |AllBlocks(file)| && AllBlocks(file)[k].range.Contains(a)
    ensures var e := AllBlocks(file)[k];
      && e.offset + (a - e.range.from) < |file|
      && FinalByte(Source(file, entries), ranges, a, prior) == file[e.offset + (a - e.range.from)]
  {
    PayloadFromBlock(file, entries, k, a);
    assert AllBlocks(file)[k] in multiset(entries);
    var i :| 0 <= i < |entries| && entries[i] == AllBlocks(file)[k];
    assert Covered(entries, a);
    ImageWithoutSharedSectors(Source(file, entries), ranges, a, prior);
  }

  // ---- Where execution starts ----

  predicate InSram(a: nat) { SRAM_START <= a < SRAM_END }

  predicate InXipSram(a: nat) { XIP_SRAM_BASE <= a < XIP_SRAM_END }

  /** The lowest address of those ranges that start in the given memory, if there are any. */
  ghost predicate LowestStart(ranges: seq<Range>, inMemory: nat -> bool, start: nat) {
    && inMemory(start)
    && (exists k :: 0 <= k < |ranges| && ranges[k].from == start)
    && forall k :: 0 <= k < |ranges| && inMemory(ranges[k].from) ==> start <= ranges[k].from
  }

  predicate NoneStarts(ranges: seq<Range>, inMemory: nat -> bool) {
    forall k :: 0 <= k < |ranges| ==> !inMemory(ranges[k].from)
  }

  /** The start of flash if it is covered; else the lowest range in SRAM, else the lowest in XIP SRAM; else 0. */
  ghost predicate IsBinaryStart(ranges: seq<Range>, start: nat) {
    if InRanges(ranges, FLASH_START) then start == FLASH_START
    else if !NoneStarts(ranges, InSram) then LowestStart(ranges, InSram, start)
    else if !NoneStarts(ranges, InXipSram) then LowestStart(ranges, InXipSram, start)
    else start == 0
  }

  method FindBinaryStart(rmap: RangeMap) returns (start: nat)
    requires Ordered(rmap.entries)
    ensures IsBinaryStart(RangesOf(rmap.entries), start)
  {
    var ranges := rmap.Ranges();
    start := ADDRESS_LIMIT - 1;
    for i := 0 to |ranges|
      invariant forall k :: 0 <= k < i ==> !ranges[k].Contains(FLASH_START)
      invariant start == ADDRESS_LIMIT - 1
        || exists k :: 0 <= k < i && ranges[k].from == start && (InSram(start) || InXipSram(start))
      invariant forall k :: 0 <= k < i && InSram(ranges[k].from) ==> InSram(start) && start <= ranges[k].from
      invariant forall k :: 0 <= k < i && InXipSram(ranges[k].from) ==> InSram(start) || start <= ranges[k].from
    {
      if ranges[i].Contains(FLASH_START) {
        return FLASH_START;
      }
      if InSram(ranges[i].from) || InXipSram(ranges[i].from) {
        if ranges[i].from < start || (InXipSram(start) && InSram(ranges[i].from)) {
          start := ranges[i].from;
        }
      }
    }
    if GetMemoryType(start) == Invalid { start := 0; }
  }
}
