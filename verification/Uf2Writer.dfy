/**
 * Writing UF2 files, field by field as the format lays them out, and what the loader makes of them:
 * which blocks it takes, and that the pages written into a file come back at their addresses.
 */
module Uf2Writer {
  import opened RangeMap
  import opened Uf2
  import opened FlashLoader
  import B = Bytes

  const MAGIC_START0: nat := 0x0A32_4655
  const MAGIC_START1: nat := 0x9E5D_5157
  const MAGIC_END: nat := 0x0AB1_6F30
  const RP2040_FAMILY_ID: nat := 0xE48B_FF56
  const DATA_SIZE: nat := 476

  // ---- Fields ----

  /** A field of 32 bits, least significant byte first. */
  function Word(v: nat): (bytes: seq<bv8>)
    ensures |bytes| == 4
  {
    var w, x := v / 0x100, v / 0x100 / 0x100;
    [B.Byte(v % 0x100), B.Byte(w % 0x100), B.Byte(x % 0x100), B.Byte(x / 0x100 % 0x100)]
  }

  lemma Digits(v: nat, w: nat, x: nat)
    requires v < ADDRESS_LIMIT && w == v / 0x100 && x == w / 0x100
    ensures v % 0x100 + 0x100 * (w % 0x100) + 0x1_0000 * (x % 0x100) + 0x100_0000 * (x / 0x100 % 0x100) == v
  {
    assert v == 0x100 * w + v % 0x100 && w == 0x100 * x + w % 0x100;
    assert x < 0x1_0000 && x / 0x100 < 0x100 && x == 0x100 * (x / 0x100) + x % 0x100;
  }

  lemma WordBytes(v: nat, w: nat, x: nat)
    requires w == v / 0x100 && x == w / 0x100
    ensures U8(Word(v)[0]) == v % 0x100 && U8(Word(v)[1]) == w % 0x100
    ensures U8(Word(v)[2]) == x % 0x100 && U8(Word(v)[3]) == x / 0x100 % 0x100
  {
    B.ByteNumber(v % 0x100);
    B.ByteNumber(w % 0x100);
    B.ByteNumber(x % 0x100);
    B.ByteNumber(x / 0x100 % 0x100);
  }

  lemma FourBytes(file: seq<bv8>, at: nat, word: seq<bv8>)
    requires at + 4 <= |file| && |word| == 4 && file[at..at + 4] == word
    ensures U32(file, at) == U8(word[0]) + 0x100 * U8(word[1]) + 0x1_0000 * U8(word[2]) + 0x100_0000 * U8(word[3])
  {
    assert word[0] == file[at] && word[1] == file[at + 1] && word[2] == file[at + 2] && word[3] == file[at + 3];
  }

  lemma WordRead(file: seq<bv8>, at: nat, v: nat)
    requires at + 4 <= |file| && file[at..at + 4] == Word(v) && v < ADDRESS_LIMIT
    ensures U32(file, at) == v
  {
    var w, x := v / 0x100, v / 0x100 / 0x100;
    FourBytes(file, at, Word(v));
    WordBytes(v, w, x);
    Digits(v, w, x);
  }

  /** The two flags that the loader looks at, and the bits between and above them. */
  datatype Flags = Flags(above: nat, familyPresent: bool, between: nat, notMainFlash: bool) {
    predicate Valid() { above < 0x4_0000 && between < 0x1000 }

    function Value(): nat {
      0x4000 * above + (if familyPresent then 0x2000 else 0) + 2 * between + if notMainFlash then 1 else 0
    }
  }

  lemma HighBit(above: nat, bit: nat, below: nat)
    requires bit < 2 && below < 0x2000
    ensures (0x4000 * above + 0x2000 * bit + below) / 0x2000 % 2 == bit
  {
    assert (0x4000 * above + 0x2000 * bit + below) / 0x2000 == 2 * above + bit;
  }

  lemma LowBit(above: nat, bit: nat)
    requires bit < 2
    ensures (2 * above + bit) % 2 == bit
  {}

  lemma FlagsRead(f: Flags)
    requires f.Valid()
    ensures f.Value() < ADDRESS_LIMIT
    ensures HasFlag(f.Value(), 0x2000) == f.familyPresent && HasFlag(f.Value(), 0x0001) == f.notMainFlash
  {
    var high, low := if f.familyPresent then 1 else 0, if f.notMainFlash then 1 else 0;
    HighBit(f.above, high, 2 * f.between + low);
    LowBit(0x2000 * f.above + 0x1000 * high + f.between, low);
  }

  /** The fields around the data of a block. */
  datatype Header = Header(start0: nat, start1: nat, flags: Flags, target: nat, size: nat, number: nat, count: nat,
                           family: nat, end: nat) {
    predicate Valid() {
      && start0 < ADDRESS_LIMIT && start1 < ADDRESS_LIMIT && flags.Valid() && target < ADDRESS_LIMIT && size < ADDRESS_LIMIT
      && number < ADDRESS_LIMIT && count < ADDRESS_LIMIT && family < ADDRESS_LIMIT && end < ADDRESS_LIMIT
    }
  }

  /** Fields one after the other. */
  function Encoded(words: seq<nat>): (bytes: seq<bv8>)
    ensures |bytes| == 4 * |words|
  {
    if words == [] then [] else Encoded(words[..|words| - 1]) + Word(words[|words| - 1])
  }

  lemma {:induction false} EncodedAt(words: seq<nat>, k: nat)
    requires k < |words|
    ensures Encoded(words)[4 * k..4 * k + 4] == Word(words[k])
  {
    var n := |words| - 1;
    if k < n {
      EncodedAt(words[..n], k);
      SliceOfFirst(Encoded(words[..n]), Word(words[n]), 4 * k, 4 * k + 4);
    } else {
      SliceOfSecond(Encoded(words[..n]), Word(words[n]));
    }
  }

  lemma SliceOfFirst(a: seq<bv8>, b: seq<bv8>, i: nat, j: nat)
    requires i <= j <= |a|
    ensures (a + b)[i..j] == a[i..j]
  {}

  lemma SliceOfSecond(a: seq<bv8>, b: seq<bv8>)
    ensures (a + b)[|a|..|a| + |b|] == b
  {}

  function Words(h: Header): seq<nat> {
    [h.start0, h.start1, h.flags.Value(), h.target, h.size, h.number, h.count, h.family]
  }

  function Block(h: Header, data: seq<bv8>): (bytes: seq<bv8>)
    requires |data| == DATA_SIZE
    ensures |bytes| == BLOCK_SIZE
  {
    Encoded(Words(h)) + data + Word(h.end)
  }

  predicate HasBlock(file: seq<bv8>, at: nat, h: Header, data: seq<bv8>) {
    |data| == DATA_SIZE && at + BLOCK_SIZE <= |file| && file[at..at + BLOCK_SIZE] == Block(h, data)
  }

  /** A part of a part. */
  lemma SliceWithin(file: seq<bv8>, at: nat, all: seq<bv8>, from: nat)
    requires at + |all| <= |file| && file[at..at + |all|] == all && from + 4 <= |all|
    ensures file[at + from..at + from + 4] == all[from..from + 4]
  {
    var part := file[at..at + |all|];
    assert part[from] == file[at + from] && part[from + 1] == file[at + from + 1];
    assert part[from + 2] == file[at + from + 2] && part[from + 3] == file[at + from + 3];
  }

  lemma FieldWithin(file: seq<bv8>, at: nat, fields: seq<bv8>, rest: seq<bv8>, from: nat, v: nat)
    requires at + |fields + rest| <= |file| && file[at..at + |fields + rest|] == fields + rest
    requires from + 4 <= |fields| && fields[from..from + 4] == Word(v) && v < ADDRESS_LIMIT
    ensures U32(file, at + from) == v
  {
    SliceWithin(file, at, fields + rest, from);
    SliceOfFirst(fields, rest, from, from + 4);
    WordRead(file, at + from, v);
  }

  /** Field number k of the header. */
  lemma FieldAt(file: seq<bv8>, at: nat, words: seq<nat>, rest: seq<bv8>, k: nat)
    requires at + |Encoded(words) + rest| <= |file| && file[at..at + |Encoded(words) + rest|] == Encoded(words) + rest
    requires k < |words| && words[k] < ADDRESS_LIMIT
    ensures at + 4 * k + 4 <= |file| && U32(file, at + 4 * k) == words[k]
  {
    EncodedAt(words, k);
    FieldWithin(file, at, Encoded(words), rest, 4 * k, words[k]);
  }

  lemma LastField(file: seq<bv8>, at: nat, h: Header, data: seq<bv8>)
    requires HasBlock(file, at, h, data) && h.end < ADDRESS_LIMIT
    ensures U32(file, at + 508) == h.end
  {
    SliceOfSlice(file, at, at + BLOCK_SIZE, at + 508, at + 512);
    assert Block(h, data)[508..512] == Word(h.end);
    WordRead(file, at + 508, h.end);
  }

  lemma DataAt(file: seq<bv8>, at: nat, h: Header, data: seq<bv8>, i: nat)
    requires HasBlock(file, at, h, data) && i < DATA_SIZE
    ensures file[at + DATA_OFFSET + i] == data[i]
  {
    var b := file[at..at + BLOCK_SIZE];
    assert b[DATA_OFFSET + i] == file[at + DATA_OFFSET + i];
    assert Block(h, data)[DATA_OFFSET + i] == data[i];
  }

  /** What the loader takes: its own magic numbers, its family, a page for main flash. */
  predicate Wanted(h: Header) {
    && h.start0 == MAGIC_START0 && h.start1 == MAGIC_START1 && h.end == MAGIC_END
    && h.flags.familyPresent && h.family == RP2040_FAMILY_ID && !h.flags.notMainFlash && h.size == PAGE_SIZE
  }

  /** The fields as the loader reads them. */
  predicate HeaderAt(file: seq<bv8>, at: nat, words: seq<nat>) {
    at + 4 * |words| <= |file| && forall k :: 0 <= k < |words| ==> U32(file, at + 4 * k) == words[k]
  }

  lemma HeaderRead(file: seq<bv8>, at: nat, h: Header, data: seq<bv8>)
    requires HasBlock(file, at, h, data) && h.Valid()
    ensures HeaderAt(file, at, Words(h))
  {
    FlagsRead(h.flags);
    var words, rest := Words(h), data + Word(h.end);
    assert Block(h, data) == Encoded(words) + rest;
    forall k | 0 <= k < |words| ensures U32(file, at + 4 * k) == words[k] { FieldAt(file, at, words, rest, k); }
  }

  /** What the block at this place contributes. */
  function Taken(file: seq<bv8>, at: nat): seq<Entry>
    requires at + BLOCK_SIZE <= |file|
  {
    if IsDataBlock(file, at) then [BlockEntry(file, at)] else []
  }

  lemma FieldsDecide(h: Header, words: seq<nat>)
    requires h.flags.Valid() && words == Words(h)
    ensures DataFields(words[0], words[1], words[2], words[4], words[7], h.end) == Wanted(h)
    ensures words[3] == h.target
  {
    FlagsRead(h.flags);
  }

  /** The entry for the target address and the data of a block that is wanted. */
  function Expected(h: Header, at: nat): seq<Entry> {
    if Wanted(h) then [Entry(Range(h.target, (h.target + PAGE_SIZE) % ADDRESS_LIMIT), at + DATA_OFFSET)] else []
  }

  lemma FieldsTaken(file: seq<bv8>, at: nat, words: seq<nat>, end: nat)
    requires at + BLOCK_SIZE <= |file| && |words| == 8 && HeaderAt(file, at, words) && U32(file, at + 508) == end
    ensures Taken(file, at) == if DataFields(words[0], words[1], words[2], words[4], words[7], end)
      then [Entry(Range(words[3], (words[3] + PAGE_SIZE) % ADDRESS_LIMIT), at + DATA_OFFSET)] else []
  {
    var k0, k1, k2, k3, k4, k7 := 0, 1, 2, 3, 4, 7;
    assert U32(file, at + 4 * k0) == words[k0] && U32(file, at + 4 * k1) == words[k1] && U32(file, at + 4 * k2) == words[k2];
    assert U32(file, at + 4 * k3) == words[k3] && U32(file, at + 4 * k4) == words[k4] && U32(file, at + 4 * k7) == words[k7];
  }

  /** A block is taken if and only if all of its fields are as wanted. */
  lemma TakenExactlyWhen(file: seq<bv8>, at: nat, h: Header, data: seq<bv8>)
    requires HasBlock(file, at, h, data) && h.Valid()
    ensures Taken(file, at) == Expected(h, at)
  {
    HeaderRead(file, at, h, data);
    LastField(file, at, h, data);
    FieldsDecide(h, Words(h));
    FieldsTaken(file, at, Words(h), h.end);
  }

  // ---- Files of pages ----

  datatype Page = Page(target: nat, bytes: seq<bv8>) {
    predicate Valid() { |bytes| == PAGE_SIZE && target + PAGE_SIZE < ADDRESS_LIMIT }

    predicate Contains(a: nat) { target <= a < target + PAGE_SIZE }
  }

  function PageHeader(p: Page, number: nat, count: nat): Header {
    Header(MAGIC_START0, MAGIC_START1, Flags(0, true, 0, false), p.target, PAGE_SIZE, number, count, RP2040_FAMILY_ID, MAGIC_END)
  }

  function PageData(p: Page): (data: seq<bv8>)
    requires p.Valid()
    ensures |data| == DATA_SIZE
  {
    p.bytes + seq(DATA_SIZE - PAGE_SIZE, _ => 0)
  }

  predicate ValidPages(pages: seq<Page>) {
    forall i :: 0 <= i < |pages| ==> pages[i].Valid()
  }

  function PageBlock(p: Page, number: nat, count: nat): (bytes: seq<bv8>)
    requires p.Valid()
    ensures |bytes| == BLOCK_SIZE
  {
    Block(PageHeader(p, number, count), PageData(p))
  }

  /** One block after the other. */
  function Joined(blocks: seq<seq<bv8>>): (file: seq<bv8>)
    requires forall i :: 0 <= i < |blocks| ==> |blocks[i]| == BLOCK_SIZE
    ensures |file| == Place(|blocks|)
  {
    if blocks == [] then [] else Joined(blocks[..|blocks| - 1]) + blocks[|blocks| - 1]
  }

  /** Where a block starts. */
  function Place(i: nat): nat {
    512 * i
  }

  lemma {:induction false} JoinedAt(blocks: seq<seq<bv8>>, i: nat)
    requires forall i :: 0 <= i < |blocks| ==> |blocks[i]| == BLOCK_SIZE
    requires i < |blocks|
    ensures Joined(blocks)[Place(i)..Place(i) + BLOCK_SIZE] == blocks[i]
  {
    var n := |blocks| - 1;
    if i < n {
      JoinedAt(blocks[..n], i);
      SliceOfFirst(Joined(blocks[..n]), blocks[n], Place(i), Place(i) + BLOCK_SIZE);
    } else {
      SliceOfSecond(Joined(blocks[..n]), blocks[n]);
    }
  }

  function PageBlocks(pages: seq<Page>, count: nat): (blocks: seq<seq<bv8>>)
    requires ValidPages(pages)
    ensures |blocks| == |pages| && forall i :: 0 <= i < |blocks| ==> |blocks[i]| == BLOCK_SIZE
  {
    seq(|pages|, i requires 0 <= i < |pages| => PageBlock(pages[i], i, count))
  }

  /** A file of pages, each block with its number and the count of all. */
  function MakeFile(pages: seq<Page>): (file: seq<bv8>)
    requires ValidPages(pages)
    ensures |file| == Place(|pages|)
  {
    Joined(PageBlocks(pages, |pages|))
  }

  lemma BlockAt(pages: seq<Page>, i: nat)
    requires ValidPages(pages) && i < |pages|
    ensures MakeFile(pages)[Place(i)..Place(i) + BLOCK_SIZE] == PageBlock(pages[i], i, |pages|)
  {
    JoinedAt(PageBlocks(pages, |pages|), i);
  }

  function PageEntry(p: Page, i: nat): Entry {
    Entry(Range(p.target, p.target + PAGE_SIZE), Place(i) + DATA_OFFSET)
  }

  function PageEntries(pages: seq<Page>): (entries: seq<Entry>)
    ensures |entries| == |pages|
  {
    seq(|pages|, i requires 0 <= i < |pages| => PageEntry(pages[i], i))
  }

  lemma PageWanted(p: Page, number: nat, count: nat)
    requires p.Valid() && number < ADDRESS_LIMIT && count < ADDRESS_LIMIT
    ensures PageHeader(p, number, count).Valid() && Wanted(PageHeader(p, number, count))
  {}

  lemma PageExpected(p: Page, i: nat, count: nat)
    requires p.Valid()
    ensures Expected(PageHeader(p, i, count), Place(i)) == [PageEntry(p, i)]
  {}

  lemma PageTaken(file: seq<bv8>, p: Page, i: nat, count: nat)
    requires p.Valid() && i < count < ADDRESS_LIMIT
    requires Place(i) + BLOCK_SIZE <= |file|
    requires file[Place(i)..Place(i) + BLOCK_SIZE] == PageBlock(p, i, count)
    ensures Taken(file, Place(i)) == [PageEntry(p, i)]
  {
    PageWanted(p, i, count);
    PageExpected(p, i, count);
    TakenExactlyWhen(file, Place(i), PageHeader(p, i, count), PageData(p));
  }

  lemma PageFound(pages: seq<Page>, i: nat)
    requires ValidPages(pages) && i < |pages| < ADDRESS_LIMIT
    ensures Place(i) + BLOCK_SIZE <= |MakeFile(pages)|
    ensures Taken(MakeFile(pages), Place(i)) == [PageEntries(pages)[i]]
  {
    BlockAt(pages, i);
    PageTaken(MakeFile(pages), pages[i], i, |pages|);
  }

  lemma NextBlock(file: seq<bv8>, n: nat)
    requires n > 0 && Place(n) <= |file|
    ensures n * BLOCK_SIZE == Place(n) && Blocks(file, n) == Blocks(file, n - 1) + Taken(file, Place(n - 1))
  {
    assert n * BLOCK_SIZE == Place(n) && (n - 1) * BLOCK_SIZE == Place(n - 1);
  }

  lemma EntriesGrow(entries: seq<Entry>, n: nat)
    requires n < |entries|
    ensures entries[..n + 1] == entries[..n] + [entries[n]]
  {}

  /** The loader finds every page of the file, in order, and nothing else. */
  lemma {:induction false} PagesFound(pages: seq<Page>, n: nat)
    requires ValidPages(pages) && n <= |pages| < ADDRESS_LIMIT
    ensures n * BLOCK_SIZE == Place(n) && Blocks(MakeFile(pages), n) == PageEntries(pages)[..n]
  {
    if n > 0 {
      PagesFound(pages, n - 1);
      NextBlock(MakeFile(pages), n);
      PageFound(pages, n - 1);
      EntriesGrow(PageEntries(pages), n - 1);
    }
  }

  lemma AllPagesFound(pages: seq<Page>)
    requires ValidPages(pages) && |pages| < ADDRESS_LIMIT
    ensures AllBlocks(MakeFile(pages)) == PageEntries(pages)
  {
    PagesFound(pages, |pages|);
    assert Place(|pages|) / BLOCK_SIZE == |pages|;
  }

  // ---- Loading them ----

  predicate Disjoint(pages: seq<Page>) {
    forall i, j :: 0 <= i < j < |pages| ==>
      pages[i].target + PAGE_SIZE <= pages[j].target || pages[j].target + PAGE_SIZE <= pages[i].target
  }

  lemma DisjointIsConsistent(pages: seq<Page>)
    requires ValidPages(pages)
    ensures Consistent(PageEntries(pages)) <==> Disjoint(pages)
  {
    var entries := PageEntries(pages);
    if Consistent(entries) {
      forall i, j | 0 <= i < j < |pages|
        ensures pages[i].target + PAGE_SIZE <= pages[j].target || pages[j].target + PAGE_SIZE <= pages[i].target
      {
        assert !Overlap(entries[j].range, entries[i].range);
      }
    }
  }

  predicate InPages(pages: seq<Page>, a: nat) {
    exists i :: 0 <= i < |pages| && pages[i].Contains(a)
  }

  /** Within a sector, what the pages fill has no gaps. */
  ghost predicate GapFree(pages: seq<Page>) {
    forall a: nat, b: nat, c: nat ::
      a < b < c && SectorOf(a) == SectorOf(c) && InPages(pages, a) && InPages(pages, c) ==> InPages(pages, b)
  }

  lemma CoveredIsInPages(pages: seq<Page>, entries: seq<Entry>, a: nat)
    requires multiset(entries) == multiset(PageEntries(pages))
    ensures Covered(entries, a) <==> InPages(pages, a)
  {
    var made := PageEntries(pages);
    if Covered(entries, a) {
      var i :| 0 <= i < |entries| && entries[i].range.Contains(a);
      assert entries[i] in multiset(made);
      var k :| 0 <= k < |made| && made[k] == entries[i];
      assert pages[k].Contains(a);
    }
    if InPages(pages, a) {
      var k :| 0 <= k < |pages| && pages[k].Contains(a);
      assert made[k] in multiset(entries);
      var i :| 0 <= i < |entries| && entries[i] == made[k];
      assert entries[i].range.Contains(a);
    }
  }

  /** The address in front of a range is not covered. */
  lemma GapBetween(ranges: seq<Range>, j: nat, b: nat)
    requires Separated(ranges) && j < |ranges| && b + 1 == ranges[j].from
    ensures !InRanges(ranges, b)
  {
    forall k | 0 <= k < |ranges| ensures !ranges[k].Contains(b) {
      if k < j { assert ranges[k].to < ranges[j].from; }
      if k > j { assert ranges[j].to < ranges[k].from; }
    }
  }

  lemma GapFreeShares(pages: seq<Page>, entries: seq<Entry>, ranges: seq<Range>)
    requires multiset(entries) == multiset(PageEntries(pages)) && Plan(ranges, entries) && GapFree(pages)
    ensures NoSharedSector(ranges)
  {
    forall i, j, a: nat | 0 <= i < j < |ranges| && GetMemoryType(ranges[j].from) == Flash && ranges[i].Contains(a)
      ensures !Touches(ranges[j], a)
    {
      if Touches(ranges[j], a) {
        var c := ranges[j].from;
        assert a < ranges[i].to < c;
        var b: nat := c - 1;
        GapBetween(ranges, j, b);
        assert ranges[j].Contains(c) && SectorOf(a) == SectorOf(c);
        CoveredIsInPages(pages, entries, a);
        CoveredIsInPages(pages, entries, b);
        CoveredIsInPages(pages, entries, c);
      }
    }
  }

  lemma PageByteAt(file: seq<bv8>, p: Page, at: nat, number: nat, count: nat, i: nat)
    requires p.Valid() && i < PAGE_SIZE && at + BLOCK_SIZE <= |file|
    requires file[at..at + BLOCK_SIZE] == PageBlock(p, number, count)
    ensures file[at + DATA_OFFSET + i] == p.bytes[i]
  {
    DataAt(file, at, PageHeader(p, number, count), PageData(p), i);
  }

  lemma PageByteInFile(pages: seq<Page>, k: nat, i: nat)
    requires ValidPages(pages) && k < |pages| && i < PAGE_SIZE
    ensures MakeFile(pages)[Place(k) + DATA_OFFSET + i] == pages[k].bytes[i]
  {
    BlockAt(pages, k);
    PageByteAt(MakeFile(pages), pages[k], Place(k), k, |pages|, i);
  }

  /** What the loader has built from a file of pages. */
  ghost predicate BuiltFrom(pages: seq<Page>, entries: seq<Entry>, ranges: seq<Range>) {
    Ordered(entries) && multiset(entries) == multiset(PageEntries(pages)) && Plan(ranges, entries)
  }

  /** What ends up at an address, whatever was there before. */
  ghost predicate Leaves(src: Source, ranges: seq<Range>, a: nat, b: bv8) {
    forall prior: bv8 :: FinalByte(src, ranges, a, prior) == b
  }

  /** Each byte of the page ends up at its address. */
  ghost predicate LoadsPage(src: Source, ranges: seq<Range>, p: Page) {
    forall i: nat :: i < |p.bytes| ==> Leaves(src, ranges, p.target + i, p.bytes[i])
  }

  predicate HoldsPage(file: seq<bv8>, offset: nat, p: Page) {
    offset + |p.bytes| <= |file| && forall i :: 0 <= i < |p.bytes| ==> file[offset + i] == p.bytes[i]
  }

  lemma ByteLoaded(file: seq<bv8>, entries: seq<Entry>, ranges: seq<Range>, e: Entry, k: nat, i: nat, b: bv8)
    requires Consistent(AllBlocks(file)) && Ordered(entries) && multiset(entries) == multiset(AllBlocks(file))
    requires Plan(ranges, entries) && NoSharedSector(ranges)
    requires k < |AllBlocks(file)| && AllBlocks(file)[k] == e && e.range.from + i < e.range.to
    requires e.offset + i < |file| && file[e.offset + i] == b
    ensures Leaves(Source(file, entries), ranges, e.range.from + i, b)
  {
    var a := e.range.from + i;
    forall prior: bv8 ensures FinalByte(Source(file, entries), ranges, a, prior) == b {
      BlockByteLoaded(file, entries, ranges, k, a, prior);
    }
  }

  lemma EntryLoaded(file: seq<bv8>, entries: seq<Entry>, ranges: seq<Range>, e: Entry, k: nat, p: Page)
    requires Consistent(AllBlocks(file)) && Ordered(entries) && multiset(entries) == multiset(AllBlocks(file))
    requires Plan(ranges, entries) && NoSharedSector(ranges) && p.Valid()
    requires k < |AllBlocks(file)| && AllBlocks(file)[k] == e && e.range == Range(p.target, p.target + PAGE_SIZE)
    requires HoldsPage(file, e.offset, p)
    ensures LoadsPage(Source(file, entries), ranges, p)
  {
    forall i: nat | i < |p.bytes| ensures Leaves(Source(file, entries), ranges, p.target + i, p.bytes[i]) {
      ByteLoaded(file, entries, ranges, e, k, i, p.bytes[i]);
    }
  }

  lemma PageInFile(pages: seq<Page>, k: nat)
    requires ValidPages(pages) && k < |pages|
    ensures HoldsPage(MakeFile(pages), Place(k) + DATA_OFFSET, pages[k])
  {
    var file, offset, p := MakeFile(pages), Place(k) + DATA_OFFSET, pages[k];
    forall i | 0 <= i < |p.bytes| ensures offset + i < |file| && file[offset + i] == p.bytes[i] {
      PageByteInFile(pages, k, i);
    }
  }

  /** Disjoint pages that leave no gap within a sector are loaded, each byte to its address. */
  lemma PageLoaded(pages: seq<Page>, entries: seq<Entry>, ranges: seq<Range>, k: nat)
    requires ValidPages(pages) && |pages| < ADDRESS_LIMIT && Disjoint(pages) && GapFree(pages)
    requires BuiltFrom(pages, entries, ranges) && k < |pages|
    ensures LoadsPage(Source(MakeFile(pages), entries), ranges, pages[k])
  {
    AllPagesFound(pages);
    DisjointIsConsistent(pages);
    GapFreeShares(pages, entries, ranges);
    PageInFile(pages, k);
    EntryLoaded(MakeFile(pages), entries, ranges, PageEntry(pages[k], k), k, pages[k]);
  }

  predicate AllInFlash(pages: seq<Page>) {
    forall i :: 0 <= i < |pages| ==> FLASH_START <= pages[i].target && pages[i].target + PAGE_SIZE <= FLASH_END
  }

  lemma FlashIsLoadable(pages: seq<Page>, entries: seq<Entry>, ranges: seq<Range>, k: nat)
    requires multiset(entries) == multiset(PageEntries(pages)) && Plan(ranges, entries) && AllInFlash(pages) && k < |ranges|
    ensures Loadable(ranges[k])
  {
    var r := ranges[k];
    assert r.Contains(r.from) && r.Contains(r.to - 1);
    CoveredIsInPages(pages, entries, r.from);
    CoveredIsInPages(pages, entries, r.to - 1);
  }

  ghost predicate PageIn(p: Page, memory: seq<bv8>) {
    p.target + |p.bytes| <= |memory| && forall i :: 0 <= i < |p.bytes| ==> memory[p.target + i] == p.bytes[i]
  }

  lemma ImageHoldsPage(src: Source, ranges: seq<Range>, p: Page, before: seq<bv8>, after: seq<bv8>)
    requires IsImage(src, ranges, before, after) && LoadsPage(src, ranges, p) && p.target + |p.bytes| <= |after|
    ensures PageIn(p, after)
  {
    forall i | 0 <= i < |p.bytes| ensures after[p.target + i] == p.bytes[i] {
      assert Leaves(src, ranges, p.target + i, p.bytes[i]);
    }
  }

  /**
   * A file of pages goes through the loader: pages that overlap are refused, and disjoint pages of flash
   * that leave no gap within a sector end up in memory, each byte at its address.
   */
  method LoadPages(pages: seq<Page>, device: Device, verify: bool) returns (res: LoadResult)
    requires device.Valid() && ValidPages(pages) && |pages| < ADDRESS_LIMIT
    modifies device
    ensures device.Valid()
    ensures res.BadBlocks? <==> !Disjoint(pages)
    ensures res != Loaded ==> device.memory == old(device.memory)
    ensures Disjoint(pages) && AllInFlash(pages) ==> res == Loaded
    ensures res == Loaded && AllInFlash(pages) && GapFree(pages) ==>
      forall k :: 0 <= k < |pages| ==> PageIn(pages[k], device.memory)
  {
    var file := MakeFile(pages);
    AllPagesFound(pages);
    DisjointIsConsistent(pages);
    var rmap, ranges;
    res, rmap, ranges := LoadFile(file, device, verify);
    ghost var entries := rmap.entries;
    if Disjoint(pages) && AllInFlash(pages) {
      forall k | 0 <= k < |ranges| ensures Loadable(ranges[k]) { FlashIsLoadable(pages, entries, ranges, k); }
    }
    if res == Loaded && AllInFlash(pages) && GapFree(pages) {
      forall k | 0 <= k < |pages| ensures PageIn(pages[k], device.memory) {
        PageLoaded(pages, entries, ranges, k);
        ImageHoldsPage(Source(file, entries), ranges, pages[k], old(device.memory), device.memory);
      }
    }
  }
}
