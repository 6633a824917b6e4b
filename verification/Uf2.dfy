/** From the blocks of a UF2 file to the map of the addresses they cover, and back to the payload bytes. */
module Uf2 {
  import opened RangeMap

  const BLOCK_SIZE: nat := 512
  const DATA_OFFSET: nat := 32        // the payload within a block
  const PAGE_SIZE: nat := 256

  function U8(b: bv8): (v: nat)
    ensures v < 0x100
  {
    b as nat
  }

  function U32(file: seq<bv8>, at: nat): (v: nat)
    requires at + 4 <= |file|
    ensures v < ADDRESS_LIMIT
  {
    U8(file[at]) + 0x100 * U8(file[at + 1]) + 0x1_0000 * U8(file[at + 2]) + 0x100_0000 * U8(file[at + 3])
  }

  predicate HasFlag(flags: nat, flag: nat)
    requires flag > 0
  {
    flags / flag % 2 == 1
  }

  /** The fields of a block for the main flash of an RP2040, with a payload of one page. */
  predicate DataFields(start0: nat, start1: nat, flags: nat, size: nat, family: nat, end: nat) {
    && start0 == 0x0A32_4655 && start1 == 0x9E5D_5157 && end == 0x0AB1_6F30
    && HasFlag(flags, 0x2000)       // a family id is present
    && family == 0xE48B_FF56        // ... and it is the RP2040
    && !HasFlag(flags, 0x0001)      // not "not main flash"
    && size == PAGE_SIZE
  }

  predicate IsDataBlock(file: seq<bv8>, at: nat)
    requires at + BLOCK_SIZE <= |file|
  {
    DataFields(U32(file, at), U32(file, at + 4), U32(file, at + 8), U32(file, at + 16), U32(file, at + 28), U32(file, at + 508))
  }

  /** The range a block covers; its end is computed in 32 bits. */
  function BlockEntry(file: seq<bv8>, at: nat): (e: Entry)
    requires at + BLOCK_SIZE <= |file|
    ensures e.range.from != e.range.to && e.range.to < ADDRESS_LIMIT
    ensures e.range.from < e.range.to ==> e.offset + e.range.to - e.range.from <= |file|
  {
    var target := U32(file, at + 12);
    Entry(Range(target, (target + PAGE_SIZE) % ADDRESS_LIMIT), at + DATA_OFFSET)
  }

  /** The entries of the data blocks among the first n blocks, in file order. */
  function Blocks(file: seq<bv8>, n: nat): (entries: seq<Entry>)
    requires n * BLOCK_SIZE <= |file|
  {
    if n == 0 then []
    else
      var at := (n - 1) * BLOCK_SIZE;
      Blocks(file, n - 1) + if IsDataBlock(file, at) then [BlockEntry(file, at)] else []
  }

  function AllBlocks(file: seq<bv8>): seq<Entry> {
    Blocks(file, |file| / BLOCK_SIZE)
  }

  /** No block runs over the end of the address space, and no two blocks overlap. */
  predicate Consistent(entries: seq<Entry>) {
    && (forall i :: 0 <= i < |entries| ==> entries[i].range.from < entries[i].range.to)
    && (forall i, j :: 0 <= i < j < |entries| ==> !Overlap(entries[j].range, entries[i].range))
  }

  lemma {:induction false} BlocksPrefix(file: seq<bv8>, m: nat, n: nat)
    requires m <= n && n * BLOCK_SIZE <= |file|
    ensures Blocks(file, m) <= Blocks(file, n)
  {
    if m < n { BlocksPrefix(file, m, n - 1); }
  }

  lemma PrefixConsistent(p: seq<Entry>, s: seq<Entry>)
    requires p <= s && Consistent(s)
    ensures Consistent(p)
  {
    assert forall i :: 0 <= i < |p| ==> p[i] == s[i];
  }

  lemma ConsistentGrows(prior: seq<Entry>, e: Entry, entries: seq<Entry>)
    requires Consistent(prior) && multiset(entries) == multiset(prior)
    ensures Consistent(prior + [e]) <==> e.range.from < e.range.to && Fits(entries, e.range)
  {
    assert forall i :: 0 <= i < |prior| ==> prior[i] in multiset(entries);
    assert forall i :: 0 <= i < |entries| ==> entries[i] in multiset(prior);
    if Consistent(prior + [e]) {
      assert (prior + [e])[|prior|] == e;
      forall i | 0 <= i < |entries| ensures !Overlap(e.range, entries[i].range) {
        var k :| 0 <= k < |prior| && prior[k] == entries[i];
        assert (prior + [e])[k] == prior[k];
      }
    }
  }

  /** The file offsets of the payloads lie within the file. */
  predicate InFile(entries: seq<Entry>, file: seq<bv8>) {
    forall e :: e in entries ==> e.offset + e.range.to <= |file| + e.range.from
  }

  /** Blocks at the beginning that contradict each other spoil the whole file. */
  lemma Inconsistent(file: seq<bv8>, n: nat)
    requires n * BLOCK_SIZE <= |file| && !Consistent(Blocks(file, n))
    ensures !Consistent(AllBlocks(file))
  {
    BlocksPrefix(file, n, |file| / BLOCK_SIZE);
    if Consistent(AllBlocks(file)) { PrefixConsistent(Blocks(file, n), AllBlocks(file)); }
  }

  lemma NextBlock(file: seq<bv8>, n: nat, pos: nat)
    requires pos == n * BLOCK_SIZE && pos + BLOCK_SIZE <= |file|
    ensures (n + 1) * BLOCK_SIZE == pos + BLOCK_SIZE
    ensures Blocks(file, n + 1) == Blocks(file, n) + if IsDataBlock(file, pos) then [BlockEntry(file, pos)] else []
  {}

  lemma AllRead(file: seq<bv8>, n: nat, pos: nat)
    requires pos == n * BLOCK_SIZE <= |file| < pos + BLOCK_SIZE
    ensures n == |file| / BLOCK_SIZE
  {}

  /**
   * Reads the blocks one by one until the file has no whole block left, or a block cannot
   * be inserted: this happens exactly when the blocks are not consistent.
   */
  method BuildMap(file: seq<bv8>) returns (rmap: RangeMap, res: InsertResult)
    ensures fresh(rmap) && Ordered(rmap.entries)
    ensures res == Inserted <==> Consistent(AllBlocks(file))
    ensures res == Inserted ==> multiset(rmap.entries) == multiset(AllBlocks(file))
  {
    rmap := new RangeMap();
    var pos := 0;
    ghost var n := 0;
    while pos + BLOCK_SIZE <= |file|
      invariant pos == n * BLOCK_SIZE <= |file|
      invariant Ordered(rmap.entries) && Consistent(Blocks(file, n)) && multiset(rmap.entries) == multiset(Blocks(file, n))
      invariant fresh(rmap)
      decreases |file| - pos
    {
      NextBlock(file, n, pos);
      if IsDataBlock(file, pos) {
        var e := BlockEntry(file, pos);
        ConsistentGrows(Blocks(file, n), e, rmap.entries);
        res := rmap.Insert(e.range, e.offset);
        if res != Inserted {
          Inconsistent(file, n + 1);
          return;
        }
      }
      pos := pos + BLOCK_SIZE;
      n := n + 1;
    }
    AllRead(file, n, pos);
    return rmap, Inserted;
  }

  lemma InFileGrows(entries: seq<Entry>, e: Entry, file: seq<bv8>)
    requires InFile(entries, file) && e.offset + e.range.to <= |file| + e.range.from
    ensures InFile(entries + [e], file)
  {}

  lemma {:induction false} BlocksInFile(file: seq<bv8>, n: nat)
    requires n * BLOCK_SIZE <= |file| && Consistent(Blocks(file, n))
    ensures InFile(Blocks(file, n), file)
  {
    if n > 0 {
      var before, at := Blocks(file, n - 1), (n - 1) * BLOCK_SIZE;
      PrefixConsistent(before, Blocks(file, n));
      BlocksInFile(file, n - 1);
      if IsDataBlock(file, at) {
        var e := BlockEntry(file, at);
        assert Blocks(file, n)[|before|] == e;
        InFileGrows(before, e, file);
      }
    }
  }

  // ---- Reading back ----

  /** The byte that the file holds for an address. */
  function Payload(entries: seq<Entry>, file: seq<bv8>, a: nat): bv8 {
    var m := Lookup(entries, a);
    if m.Mapping? && m.value + m.offset < |file| then file[m.value + m.offset] else 0
  }

  function PayloadBytes(entries: seq<Entry>, file: seq<bv8>, from: nat, size: nat): (bytes: seq<bv8>)
    ensures |bytes| == size
  {
    seq(size, i requires 0 <= i < size => Payload(entries, file, from + i))
  }

  /** It is the byte of the one block that covers the address. */
  lemma PayloadFromBlock(file: seq<bv8>, entries: seq<Entry>, k: nat, a: nat)
    requires Consistent(AllBlocks(file)) && Ordered(entries) && multiset(entries) == multiset(AllBlocks(file))
    requires k < |AllBlocks(file)| && AllBlocks(file)[k].range.Contains(a)
    ensures var e := AllBlocks(file)[k];
      e.offset + (a - e.range.from) < |file| && Payload(entries, file, a) == file[e.offset + (a - e.range.from)]
  {
    var e := AllBlocks(file)[k];
    BlocksInFile(file, |file| / BLOCK_SIZE);
    assert e in multiset(entries);
    var i :| 0 <= i < |entries| && entries[i] == e;
    LookupCovered(entries, a, i);
  }

  ghost predicate SpanCovered(entries: seq<Entry>, from: nat, size: nat) {
    forall a: nat :: from <= a < from + size ==> Covered(entries, a)
  }

  datatype ReadResult = Read(bytes: seq<bv8>) | Unmapped

  /** Reads a span block by block; it succeeds exactly on spans that are covered throughout. */
  method ReadSpan(file: seq<bv8>, rmap: RangeMap, address: nat, size: nat) returns (res: ReadResult)
    requires Ordered(rmap.entries) && InFile(rmap.entries, file)
    ensures res.Read? <==> SpanCovered(rmap.entries, address, size)
    ensures res.Read? ==> res.bytes == PayloadBytes(rmap.entries, file, address, size)
  {
    var buffer, pos, left := [], address, size;
    while left > 0
      invariant pos + left == address + size && address <= pos && left >= 0
      invariant SpanCovered(rmap.entries, address, pos - address)
      invariant buffer == PayloadBytes(rmap.entries, file, address, pos - address)
    {
      var m := rmap.Get(pos);
      if m.NotMapped? || m.offset == m.maxOffset {
        assert !Covered(rmap.entries, pos) by { NotFoundUncovered(rmap.entries, pos); }
        return Unmapped;
      }
      var thisSize := if left <= m.maxOffset - m.offset then left else m.maxOffset - m.offset;
      FoundSpan(rmap.entries, file, pos, thisSize);
      buffer := buffer + file[m.value + m.offset..m.value + m.offset + thisSize];
      SpanGrows(rmap.entries, file, address, pos - address, thisSize);
      pos := pos + thisSize;
      left := left - thisSize;
    }
    return Read(buffer);
  }

  lemma NotFoundUncovered(entries: seq<Entry>, p: nat)
    requires Ordered(entries)
    requires var m := Lookup(entries, p); m.NotMapped? || m.offset == m.maxOffset
    ensures !Covered(entries, p)
  {
    if Covered(entries, p) {
      var k :| 0 <= k < |entries| && entries[k].range.Contains(p);
      LookupCovered(entries, p, k);
    }
  }

  lemma FoundByte(entries: seq<Entry>, file: seq<bv8>, p: nat, k: nat, i: nat)
    requires Ordered(entries) && InFile(entries, file)
    requires k < |entries| && entries[k].range.Contains(p) && entries[k].range.Contains(p + i)
    ensures var m := Lookup(entries, p);
      m.Mapping? && m.value + m.offset + i < |file| && Payload(entries, file, p + i) == file[m.value + m.offset + i]
    ensures Covered(entries, p + i)
  {
    LookupCovered(entries, p, k);
    LookupCovered(entries, p + i, k);
    assert entries[k] in entries;
  }

  lemma FoundBytes(entries: seq<Entry>, file: seq<bv8>, p: nat, k: nat, size: nat)
    requires Ordered(entries) && InFile(entries, file) && size > 0
    requires k < |entries| && entries[k].range.Contains(p) && entries[k].range.Contains(p + size - 1)
    ensures var m := Lookup(entries, p);
      && m.Mapping? && m.value + m.offset + size <= |file|
      && file[m.value + m.offset..m.value + m.offset + size] == PayloadBytes(entries, file, p, size)
  {
    var m := Lookup(entries, p);
    FoundByte(entries, file, p, k, size - 1);
    var bytes := PayloadBytes(entries, file, p, size);
    forall i | 0 <= i < size ensures bytes[i] == file[m.value + m.offset + i] {
      FoundByte(entries, file, p, k, i);
    }
  }

  lemma EntrySpan(entries: seq<Entry>, p: nat, k: nat, size: nat)
    requires k < |entries| && entries[k].range.Contains(p) && p + size <= entries[k].range.to
    ensures SpanCovered(entries, p, size)
  {
    forall a: nat | p <= a < p + size ensures Covered(entries, a) { assert entries[k].range.Contains(a); }
  }

  /** What one lookup finds is the payload of a whole stretch of addresses. */
  lemma FoundSpan(entries: seq<Entry>, file: seq<bv8>, p: nat, size: nat)
    requires Ordered(entries) && InFile(entries, file) && size > 0
    requires var m := Lookup(entries, p); m.Mapping? && size + m.offset <= m.maxOffset
    ensures var m := Lookup(entries, p);
      && m.value + m.offset + size <= |file|
      && file[m.value + m.offset..m.value + m.offset + size] == PayloadBytes(entries, file, p, size)
    ensures SpanCovered(entries, p, size)
  {
    if !Covered(entries, p) { LookupUncovered(entries, p); }
    var k :| 0 <= k < |entries| && entries[k].range.Contains(p);
    LookupCovered(entries, p, k);
    FoundBytes(entries, file, p, k, size);
    EntrySpan(entries, p, k, size);
  }

  lemma SpanGrows(entries: seq<Entry>, file: seq<bv8>, from: nat, size: nat, more: nat)
    ensures PayloadBytes(entries, file, from, size) + PayloadBytes(entries, file, from + size, more)
      == PayloadBytes(entries, file, from, size + more)
  {}
}
