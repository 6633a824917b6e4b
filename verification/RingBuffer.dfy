/** Arithmetic of a ring buffer that keeps one slot empty. */
module RingBuffer {
  import opened Common

  function Last<T>(s: seq<T>, n: nat): (r: seq<T>)
    ensures |r| == (if |s| <= n then |s| else n)
    ensures r == s[|s| - |r|..]
  {
    if |s| <= n then s else s[|s| - n..]
  }

  /** The C remainder, which takes the sign of the dividend. */
  function CMod(i: int, n: int): int
    requires n > 0
  {
    if i >= 0 then i % n else -((-i) % n)
  }

  function PositiveModulo(i: int, n: int): (r: int)
    requires n > 0
    ensures 0 <= r < n && r == i % n
  {
    CModEuclid(i, n);
    CMod(CMod(i, n) + n, n)
  }

  lemma CModEuclid(i: int, n: int)
    requires n > 0
    ensures CMod(CMod(i, n) + n, n) == i % n
  {
    if i >= 0 {
      ModAdd(i % n, n);
    } else {
      var q, r := (-i) / n, (-i) % n;
      assert i == -(n * q) - r;
      ModUnique(i, n, if r == 0 then -q else -q - 1, if r == 0 then 0 else n - r);
      if r == 0 { ModAdd(0, n); } else { ModUnique(n - r, n, 0, n - r); }
    }
  }

  lemma ModUnique(i: int, n: int, q: int, r: int)
    requires n > 0 && i == n * q + r && 0 <= r < n
    ensures i % n == r
  {
    Multiple(n, q - i / n);
    assert n * (q - i / n) == i % n - r;
  }

  lemma Multiple(n: int, d: int)
    requires n > 0
    ensures d >= 1 ==> n * d >= n
    ensures d <= -1 ==> n * d <= -n
  {}

  lemma ModAdd(r: int, n: int)
    requires 0 <= r < n
    ensures (r + n) % n == r
  {
    ModUnique(r + n, n, 1, r);
  }

  /** What the ring holds between `nextOut` and `in`, oldest first; `nextOut` may be one past the last slot. */
  function Between<T>(ring: seq<T>, nextOut: nat, nextIn: nat): seq<T>
    requires nextIn < |ring| && nextOut <= |ring|
  {
    if nextOut <= nextIn then ring[nextOut..nextIn] else ring[nextOut..] + ring[..nextIn]
  }

  function Overwrite<T>(ring: seq<T>, at: nat, src: seq<T>): (r: seq<T>)
    requires at + |src| <= |ring|
    ensures |r| == |ring|
  {
    ring[..at] + src + ring[at + |src|..]
  }

  /** The ring after `src` is written from `nextIn` on, wrapping at the end. */
  function Stored<T>(ring: seq<T>, nextIn: nat, src: seq<T>): (r: seq<T>)
    requires nextIn < |ring| && |src| < |ring|
    ensures |r| == |ring|
  {
    if |src| < |ring| - nextIn then Overwrite(ring, nextIn, src)
    else Overwrite(Overwrite(ring, nextIn, src[..|ring| - nextIn]), 0, src[|ring| - nextIn..])
  }

  function Advanced(nextIn: nat, len: nat, size: nat): (r: nat)
    requires nextIn < size && len < size
    ensures r < size && r == (nextIn + len) % size
  {
    if nextIn + len < size then nextIn + len else (ModUnique(nextIn + len, size, 1, nextIn + len - size); nextIn + len - size)
  }

  /** Overwriting leaves what is before and behind, and puts the source in between. */
  lemma OverwriteParts<T>(ring: seq<T>, at: nat, src: seq<T>)
    requires at + |src| <= |ring|
    ensures Overwrite(ring, at, src)[..at + |src|] == ring[..at] + src
    ensures Overwrite(ring, at, src)[at + |src|..] == ring[at + |src|..]
  {}

  lemma DropOfSum<T>(a: seq<T>, b: seq<T>, n: nat)
    requires n <= |a|
    ensures (a + b)[n..] == a[n..] + b
  {}

  lemma DropOfTake<T>(s: seq<T>, n: nat, m: nat)
    requires n <= m <= |s|
    ensures s[..m][n..] == s[n..m]
  {}

  lemma DropOfDrop<T>(s: seq<T>, n: nat, m: nat)
    requires n + m <= |s|
    ensures s[n..][m..] == s[n + m..]
  {}

  lemma FitsStraight<T>(ring: seq<T>, nextOut: nat, nextIn: nat, src: seq<T>)
    requires nextIn < |ring| && nextOut <= |ring| && nextIn + |src| < |ring|
    requires nextIn < nextOut ==> nextIn + |src| < nextOut
    ensures Between(Overwrite(ring, nextIn, src), nextOut, nextIn + |src|) == Between(ring, nextOut, nextIn) + src
  {
    var r, end := Overwrite(ring, nextIn, src), nextIn + |src|;
    OverwriteParts(ring, nextIn, src);
    if nextOut <= nextIn {
      DropOfTake(r, nextOut, end);
      DropOfSum(ring[..nextIn], src, nextOut);
      DropOfTake(ring, nextOut, nextIn);
    } else {
      DropOfDrop(r, end, nextOut - end);
      DropOfDrop(ring, end, nextOut - end);
      Regroup(ring[nextOut..], ring[..nextIn], src);
    }
  }

  lemma FitsWrapped<T>(ring: seq<T>, nextOut: nat, nextIn: nat, src: seq<T>, r: seq<T>)
    requires nextOut <= nextIn < |ring| && |ring| - nextIn <= |src| < |ring|
    requires nextIn + |src| - |ring| < nextOut
    requires r == src[|ring| - nextIn..] + ring[nextIn + |src| - |ring|..nextIn] + src[..|ring| - nextIn]
    ensures Between(r, nextOut, nextIn + |src| - |ring|) == ring[nextOut..nextIn] + src
  {
    var end, room := nextIn + |src| - |ring|, |ring| - nextIn;
    assert r[..end] == src[room..];
    assert r[nextOut..] == ring[nextOut..nextIn] + src[..room];
    Regroup(ring[nextOut..nextIn], src[..room], src[room..]);
    assert src[..room] + src[room..] == src;
  }

  /** Text that fits is appended. */
  lemma WriteFits<T>(ring: seq<T>, nextOut: nat, nextIn: nat, src: seq<T>)
    requires nextIn < |ring| && nextOut <= |ring|
    requires |Between(ring, nextOut, nextIn)| + |src| < |ring|
    ensures Between(Stored(ring, nextIn, src), nextOut, Advanced(nextIn, |src|, |ring|)) == Between(ring, nextOut, nextIn) + src
  {
    if nextIn + |src| < |ring| {
      FitsStraight(ring, nextOut, nextIn, src);
    } else {
      StoredWraps(ring, nextIn, src);
      FitsWrapped(ring, nextOut, nextIn, src, Stored(ring, nextIn, src));
    }
  }

  lemma StoredWraps<T>(ring: seq<T>, nextIn: nat, src: seq<T>)
    requires nextIn < |ring| && |ring| - nextIn <= |src| < |ring|
    ensures var room := |ring| - nextIn;
      Stored(ring, nextIn, src) == src[room..] + ring[|src| - room..nextIn] + src[..room]
  {}

  lemma OverflowStraight<T>(ring: seq<T>, nextOut: nat, nextIn: nat, src: seq<T>)
    requires nextIn < nextOut <= |ring| && nextIn + |src| < |ring| && nextOut <= nextIn + |src|
    ensures var end := nextIn + |src|;
      Between(Stored(ring, nextIn, src), end + 1, end) == Last(Between(ring, nextOut, nextIn) + src, |ring| - 1)
  {
    var end := nextIn + |src|;
    var r := Stored(ring, nextIn, src);
    var back := ring[end + 1..] + (ring[..nextIn] + src);
    assert r == ring[..nextIn] + src + ring[end..];
    assert r[end + 1..] == ring[end + 1..];
    assert r[..end] == ring[..nextIn] + src;
    assert ring[nextOut..] == ring[nextOut..end + 1] + ring[end + 1..];
    assert Between(ring, nextOut, nextIn) + src == ring[nextOut..end + 1] + back;
    SuffixIs(Between(ring, nextOut, nextIn) + src, ring[nextOut..end + 1], back);
  }

  lemma Rotated<T>(x: seq<T>, y: seq<T>, z: seq<T>)
    requires y != []
    ensures Between(x + y + z, |x| + 1, |x|) == y[1..] + (z + x)
  {
    var r := x + y + z;
    assert r[..|x|] == x;
    assert r[|x| + 1..] == y[1..] + z;
  }

  lemma SurvivingTail<T>(ring: seq<T>, nextOut: nat, nextIn: nat, src: seq<T>)
    requires nextIn < |ring| && nextOut <= |ring| && |ring| - nextIn <= |src| < |ring|
    requires nextOut <= nextIn ==> nextOut <= nextIn + |src| - |ring|
    ensures Last(Between(ring, nextOut, nextIn) + src, |ring| - 1) == ring[nextIn + |src| - |ring| + 1..nextIn] + src
  {
    var keep := nextIn + |src| - |ring| + 1;
    var front := if nextOut <= nextIn then ring[nextOut..keep] else ring[nextOut..] + ring[..keep];
    assert Between(ring, nextOut, nextIn) == front + ring[keep..nextIn];
    Regroup(front, ring[keep..nextIn], src);
    SuffixIs(Between(ring, nextOut, nextIn) + src, front, ring[keep..nextIn] + src);
  }

  lemma OverflowWrapped<T>(ring: seq<T>, nextOut: nat, nextIn: nat, src: seq<T>, r: seq<T>)
    requires nextIn < |ring| && nextOut <= |ring| && |ring| - nextIn <= |src| < |ring|
    requires nextOut <= nextIn ==> nextOut <= nextIn + |src| - |ring|
    requires r == src[|ring| - nextIn..] + ring[nextIn + |src| - |ring|..nextIn] + src[..|ring| - nextIn]
    ensures var end := nextIn + |src| - |ring|;
      Between(r, end + 1, end) == Last(Between(ring, nextOut, nextIn) + src, |ring| - 1)
  {
    var end, room := nextIn + |src| - |ring|, |ring| - nextIn;
    SurvivingTail(ring, nextOut, nextIn, src);
    Rotated(src[room..], ring[end..nextIn], src[..room]);
    Rejoined(src, room);
    DropOfSlice(ring, end, nextIn);
  }

  lemma Rejoined<T>(s: seq<T>, n: nat)
    requires n <= |s|
    ensures s[..n] + s[n..] == s
  {}

  lemma DropOfSlice<T>(s: seq<T>, i: nat, j: nat)
    requires i < j <= |s|
    ensures s[i..j][1..] == s[i + 1..j]
  {}

  lemma OverflowAround<T>(ring: seq<T>, nextOut: nat, nextIn: nat, src: seq<T>)
    requires nextIn < |ring| && nextOut <= |ring| && |ring| - nextIn <= |src| < |ring|
    requires |Between(ring, nextOut, nextIn)| + |src| >= |ring|
    ensures var end := nextIn + |src| - |ring|;
      Between(Stored(ring, nextIn, src), end + 1, end) == Last(Between(ring, nextOut, nextIn) + src, |ring| - 1)
  {
    StoredWraps(ring, nextIn, src);
    OverflowWrapped(ring, nextOut, nextIn, src, Stored(ring, nextIn, src));
  }

  /** Text that does not fit pushes out the oldest bytes: all slots but one end up in use. */
  lemma WriteOverflows<T>(ring: seq<T>, nextOut: nat, nextIn: nat, src: seq<T>)
    requires nextIn < |ring| && nextOut <= |ring| && |src| < |ring|
    requires |Between(ring, nextOut, nextIn)| + |src| >= |ring|
    ensures var end := Advanced(nextIn, |src|, |ring|);
      Between(Stored(ring, nextIn, src), end + 1, end) == Last(Between(ring, nextOut, nextIn) + src, |ring| - 1)
  {
    if nextIn + |src| < |ring| {
      OverflowStraight(ring, nextOut, nextIn, src);
    } else {
      OverflowAround(ring, nextOut, nextIn, src);
    }
  }

  /** A write keeps the last size - 1 bytes, wherever `nextOut` then has to be. */
  lemma WriteKeepsLast<T>(ring: seq<T>, nextOut: nat, nextIn: nat, src: seq<T>)
    requires nextIn < |ring| && nextOut <= |ring| && |src| < |ring|
    ensures var held, end := Between(ring, nextOut, nextIn), Advanced(nextIn, |src|, |ring|);
      Between(Stored(ring, nextIn, src), if |held| + |src| >= |ring| then end + 1 else nextOut, end)
      == Last(held + src, |ring| - 1)
  {
    if |Between(ring, nextOut, nextIn)| + |src| >= |ring| {
      WriteOverflows(ring, nextOut, nextIn, src);
    } else {
      WriteFits(ring, nextOut, nextIn, src);
    }
  }

  lemma SuffixIs<T>(s: seq<T>, front: seq<T>, back: seq<T>)
    requires s == front + back
    ensures Last(s, |back|) == back
  {}

  lemma Count<T>(ring: seq<T>, nextOut: nat, nextIn: nat)
    requires nextIn < |ring| && nextOut <= |ring|
    ensures (nextIn - nextOut) % |ring| == |Between(ring, nextOut, nextIn)|
  {
    if nextOut <= nextIn {
      ModUnique(nextIn - nextOut, |ring|, 0, nextIn - nextOut);
    } else {
      ModUnique(nextIn - nextOut, |ring|, -1, nextIn - nextOut + |ring|);
    }
  }

  /** Cutting a text that is too long down to its last n bytes first makes no difference. */
  lemma LastOfLast<T>(held: seq<T>, text: seq<T>, n: nat)
    requires |text| >= n
    ensures Last(held + Last(text, n), n) == Last(held + text, n) == Last(text, n)
  {
    var cut := |text| - n;
    SuffixIs(held + text[cut..], held, text[cut..]);
    Rejoined(text, cut);
    Regroup(held, text[..cut], text[cut..]);
    SuffixIs(held + text, held + text[..cut], text[cut..]);
    SuffixIs(text, text[..cut], text[cut..]);
  }

  /** Moving `nextOut` on by `sent` slots removes exactly the oldest `sent` bytes. */
  lemma RingDrain<T>(ring: seq<T>, nextOut: nat, nextIn: nat, sent: nat)
    requires nextIn < |ring| && nextOut <= |ring| && sent <= |Between(ring, nextOut, nextIn)|
    ensures Between(ring, (nextOut + sent) % |ring|, nextIn) == Between(ring, nextOut, nextIn)[sent..]
    ensures (nextOut + sent) % |ring| == nextIn <==> sent == |Between(ring, nextOut, nextIn)|
  {
    var size := |ring|;
    if nextOut + sent < size {
      ModUnique(nextOut + sent, size, 0, nextOut + sent);
    } else {
      ModUnique(nextOut + sent, size, 1, nextOut + sent - size);
    }
  }

  // ---- One entry at a time ----

  lemma Full<T>(ring: seq<T>, nextOut: nat, nextIn: nat)
    requires nextIn < |ring| && nextOut < |ring|
    ensures (nextIn + 1) % |ring| == nextOut <==> |Between(ring, nextOut, nextIn)| == |ring| - 1
  {
    if nextIn + 1 < |ring| {
      ModUnique(nextIn + 1, |ring|, 0, nextIn + 1);
    } else {
      ModUnique(nextIn + 1, |ring|, 1, 0);
    }
  }

  lemma Push<T>(ring: seq<T>, nextOut: nat, nextIn: nat, x: T)
    requires nextIn < |ring| && nextOut < |ring| && |Between(ring, nextOut, nextIn)| < |ring| - 1
    ensures Between(ring[nextIn := x], nextOut, (nextIn + 1) % |ring|) == Between(ring, nextOut, nextIn) + [x]
  {
    WriteFits(ring, nextOut, nextIn, [x]);
    assert Stored(ring, nextIn, [x]) == ring[nextIn := x];
  }

  lemma Pop<T>(ring: seq<T>, nextOut: nat, nextIn: nat)
    requires nextIn < |ring| && nextOut < |ring| && nextOut != nextIn
    ensures Between(ring, nextOut, nextIn) == [ring[nextOut]] + Between(ring, (nextOut + 1) % |ring|, nextIn)
  {
    RingDrain(ring, nextOut, nextIn, 1);
  }
}
