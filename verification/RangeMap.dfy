/** Address ranges, and the map from disjoint ranges to file offsets that the loader builds. */
module RangeMap {
  const ADDRESS_LIMIT: nat := 0x1_0000_0000   // addresses are 32 bits wide

  datatype Range = Range(from: nat, to: nat) {
    predicate Contains(a: nat) { from <= a < to }

    function Clamp(a: nat): nat {
      var lifted := if a < from then from else a;
      if lifted > to then to else lifted
    }

    function Intersect(other: Range): Range {
      Range(other.Clamp(from), other.Clamp(to))
    }

    /** Not symmetric: a range that ends where this one starts counts as intersecting. */
    predicate Intersects(other: Range) {
      !(other.from >= to || other.to < from)
    }
  }

  /** The clamping intersection is the set intersection, for ranges that meet at all. */
  lemma IntersectIsIntersection(r: Range, other: Range, a: nat)
    requires r.from <= r.to && other.from <= other.to
    ensures r.Intersect(other).Contains(a) <==> r.Contains(a) && other.Contains(a)
  {}

  datatype Entry = Entry(range: Range, offset: nat)

  predicate Overlap(r: Range, s: Range) {
    r.from < s.to && s.from < r.to
  }

  /** Non-empty and disjoint, in the order of the addresses. */
  predicate Ordered(entries: seq<Entry>) {
    && (forall i :: 0 <= i < |entries| ==> entries[i].range.from < entries[i].range.to < ADDRESS_LIMIT)
    && (forall i, j :: 0 <= i < j < |entries| ==> entries[i].range.to <= entries[j].range.from)
  }

  predicate Covered(entries: seq<Entry>, a: nat) {
    exists i :: 0 <= i < |entries| && entries[i].range.Contains(a)
  }

  predicate Fits(entries: seq<Entry>, r: Range) {
    forall i :: 0 <= i < |entries| ==> !Overlap(r, entries[i].range)
  }

  /** Where an ordered map puts a new entry: behind all that start at or before it. */
  predicate UpperBound(entries: seq<Entry>, p: nat, k: nat) {
    && k <= |entries|
    && (forall i :: 0 <= i < k ==> entries[i].range.from <= p)
    && (forall i :: k <= i < |entries| ==> entries[i].range.from > p)
  }

  datatype InsertResult = Inserted | Overlapping | Backwards

  datatype Mapping = NotMapped | Mapping(offset: nat, maxOffset: nat, value: nat)

  class RangeMap {
    var entries: seq<Entry>

    constructor ()
      ensures entries == []
    {
      entries := [];
    }

    method FindUpperBound(p: nat) returns (k: nat)
      requires Ordered(entries)
      ensures UpperBound(entries, p, k)
    {
      k := 0;
      while k < |entries| && entries[k].range.from <= p
        invariant 0 <= k <= |entries|
        invariant forall i :: 0 <= i < k ==> entries[i].range.from <= p
      {
        k := k + 1;
      }
    }

    /** Looks for an overlap, from the last entry that starts at or before the range until none can overlap. */
    method FindOverlap(r: Range) returns (found: bool)
      requires Ordered(entries) && r.from < r.to
      ensures found <==> !Fits(entries, r)
    {
      var k := FindUpperBound(r.from);
      var f := if k != 0 then k - 1 else k;
      while f < |entries| && entries[f].range.from < r.to
        invariant f <= |entries|
        invariant forall i :: 0 <= i < f ==> !Overlap(r, entries[i].range)
      {
        if entries[f].range.Intersects(r) {
          assert Overlap(r, entries[f].range);
          return true;
        }
        f := f + 1;
      }
      return false;
    }

    /** An empty range is ignored; a range whose end wrapped around trips an assertion of the source. */
    method Insert(r: Range, offset: nat) returns (res: InsertResult)
      requires Ordered(entries) && r.to < ADDRESS_LIMIT
      modifies this
      ensures Ordered(entries)
      ensures res == if r.to == r.from then Inserted
        else if r.to < r.from then Backwards
        else if Fits(old(entries), r) then Inserted else Overlapping
      ensures r.to == r.from || res != Inserted ==> entries == old(entries)
      ensures r.to != r.from && res == Inserted ==> multiset(entries) == multiset(old(entries)) + multiset{Entry(r, offset)}
    {
      if r.to != r.from {
        if r.to < r.from {
          return Backwards;
        }
        var found := FindOverlap(r);
        if found {
          return Overlapping;
        }
        var k := FindUpperBound(r.from);
        assert entries == entries[..k] + entries[k..];
        entries := entries[..k] + [Entry(r, offset)] + entries[k..];
        InsertKeepsOrder(old(entries), k, Entry(r, offset));
      }
      return Inserted;
    }

    /** The last entry that starts at or before p, if p is not beyond its end. The end itself is accepted. */
    method Get(p: nat) returns (m: Mapping)
      requires Ordered(entries)
      ensures m == Lookup(entries, p)
    {
      var f := FindUpperBound(p);
      LookupAt(entries, p, f);
      if f == 0 {
        return NotMapped;
      }
      f := f - 1;
      if p > entries[f].range.to {
        return NotMapped;
      }
      return Mapping(p - entries[f].range.from, entries[f].range.to - entries[f].range.from, entries[f].offset);
    }

    /** The ranges in the order of their addresses. */
    method Ranges() returns (ranges: seq<Range>)
      ensures ranges == RangesOf(entries)
    {
      ranges := [];
      for i := 0 to |entries|
        invariant ranges == RangesOf(entries[..i])
      {
        ranges := ranges + [entries[i].range];
      }
      assert entries[..|entries|] == entries;
    }
  }

  function RangesOf(entries: seq<Entry>): (ranges: seq<Range>)
    ensures |ranges| == |entries|
  {
    seq(|entries|, i requires 0 <= i < |entries| => entries[i].range)
  }

  lemma InsertKeepsOrder(entries: seq<Entry>, k: nat, e: Entry)
    requires Ordered(entries) && UpperBound(entries, e.range.from, k) && Fits(entries, e.range)
    requires e.range.from < e.range.to < ADDRESS_LIMIT
    ensures Ordered(entries[..k] + [e] + entries[k..])
  {
    assert forall i :: 0 <= i < k ==> entries[i].range.to <= e.range.from;
  }

  function Lookup(entries: seq<Entry>, p: nat): (m: Mapping)
    ensures m.Mapping? ==> m.offset <= m.maxOffset
  {
    if entries == [] then NotMapped
    else
      var e := entries[|entries| - 1];
      if e.range.from > p then Lookup(entries[..|entries| - 1], p)
      else if p > e.range.to then NotMapped
      else Mapping(p - e.range.from, e.range.to - e.range.from, e.offset)
  }

  lemma {:induction false} LookupAt(entries: seq<Entry>, p: nat, k: nat)
    requires UpperBound(entries, p, k)
    ensures k == 0 ==> Lookup(entries, p) == NotMapped
    ensures k > 0 ==>
      var e := entries[k - 1];
      Lookup(entries, p)
        == if p > e.range.to then NotMapped else Mapping(p - e.range.from, e.range.to - e.range.from, e.offset)
  {
    if k < |entries| {
      LookupAt(entries[..|entries| - 1], p, k);
    }
  }

  /** A covered address is found in the one entry that covers it. */
  lemma LookupCovered(entries: seq<Entry>, p: nat, k: nat)
    requires Ordered(entries) && k < |entries| && entries[k].range.Contains(p)
    ensures Lookup(entries, p)
      == Mapping(p - entries[k].range.from, entries[k].range.to - entries[k].range.from, entries[k].offset)
  {
    LookupAt(entries, p, k + 1);
  }

  /** An address that is not covered is not found, or is found with nothing left to read. */
  lemma LookupUncovered(entries: seq<Entry>, p: nat)
    requires Ordered(entries) && !Covered(entries, p)
    ensures var m := Lookup(entries, p); m.Mapping? ==> m.offset == m.maxOffset
  {
    if entries != [] {
      var n := |entries| - 1;
      if entries[n].range.from > p {
        assert forall i :: 0 <= i < n ==> entries[..n][i] == entries[i];
        LookupUncovered(entries[..n], p);
      } else {
        assert !entries[n].range.Contains(p);
      }
    }
  }

  // ---- Coalescing ----

  predicate InRanges(ranges: seq<Range>, a: nat) {
    exists i :: 0 <= i < |ranges| && ranges[i].Contains(a)
  }

  predicate Sorted(ranges: seq<Range>) {
    && (forall i :: 0 <= i < |ranges| ==> ranges[i].from < ranges[i].to < ADDRESS_LIMIT)
    && (forall i, j :: 0 <= i < j < |ranges| ==> ranges[i].to <= ranges[j].from)
  }

  /** Sorted, and no range ends where the next one starts. */
  predicate Separated(ranges: seq<Range>) {
    && Sorted(ranges)
    && (forall i, j :: 0 <= i < j < |ranges| ==> ranges[i].to < ranges[j].from)
  }

  ghost predicate SameCover(r: seq<Range>, s: seq<Range>) {
    forall a: nat :: InRanges(r, a) <==> InRanges(s, a)
  }

  function Merged(ranges: seq<Range>, i: nat): seq<Range>
    requires i + 1 < |ranges|
  {
    ranges[..i] + [Range(ranges[i].from, ranges[i + 1].to)] + ranges[i + 2..]
  }

  lemma MergeSorted(ranges: seq<Range>, i: nat)
    requires Sorted(ranges) && i + 1 < |ranges| && ranges[i].to == ranges[i + 1].from
    ensures Sorted(Merged(ranges, i))
  {}

  lemma MergeCovers(ranges: seq<Range>, i: nat, a: nat)
    requires Sorted(ranges) && i + 1 < |ranges| && ranges[i].to == ranges[i + 1].from && InRanges(ranges, a)
    ensures InRanges(Merged(ranges, i), a)
  {
    var k :| 0 <= k < |ranges| && ranges[k].Contains(a);
    assert Merged(ranges, i)[if k <= i then k else k - 1].Contains(a);
  }

  lemma MergeCoversNoMore(ranges: seq<Range>, i: nat, a: nat)
    requires Sorted(ranges) && i + 1 < |ranges| && ranges[i].to == ranges[i + 1].from && InRanges(Merged(ranges, i), a)
    ensures InRanges(ranges, a)
  {
    var k :| 0 <= k < |Merged(ranges, i)| && Merged(ranges, i)[k].Contains(a);
    if k == i {
      assert ranges[i].Contains(a) || ranges[i + 1].Contains(a);
    } else {
      assert ranges[if k < i then k else k + 1].Contains(a);
    }
  }

  lemma MergeKeepsCover(ranges: seq<Range>, i: nat)
    requires Sorted(ranges) && i + 1 < |ranges| && ranges[i].to == ranges[i + 1].from
    ensures SameCover(ranges, Merged(ranges, i))
  {
    forall a: nat ensures InRanges(ranges, a) <==> InRanges(Merged(ranges, i), a) {
      if InRanges(ranges, a) { MergeCovers(ranges, i, a); }
      if InRanges(Merged(ranges, i), a) { MergeCoversNoMore(ranges, i, a); }
    }
  }

  /** Joins each range with its successor as long as they touch. */
  method Coalesce(ranges: seq<Range>) returns (res: seq<Range>)
    requires Sorted(ranges)
    ensures Separated(res) && SameCover(ranges, res)
  {
    res := ranges;
    var i := 0;
    while i < |res|
      invariant 0 <= i <= |res| && Sorted(res) && SameCover(ranges, res)
      invariant forall j, k :: 0 <= j < i && j < k < |res| ==> res[j].to < res[k].from
      decreases |res|, |res| - i
    {
      if i != |res| - 1 && res[i].to == res[i + 1].from {
        MergeKeepsCover(res, i);
        MergeSorted(res, i);
        res := Merged(res, i);
      } else {
        i := i + 1;
      }
    }
  }
}
