/** Step 2 of the main sort: scan a sorted big bucket from both ends. */
module MainSweep {
  import opened Rotations
  import opened Radix
  import opened Bwt
  import opened FallbackQSort
  import opened MainSimpleSort
  import opened MainBuckets
  import opened MainScan
  import opened MainCopy
  import opened MainCopied

  /** Where big bucket ss begins, and where its bucket of the repeated byte
      begins and ends. */
  lemma BigParts(b: seq<Byte>, ss: int)
    requires 0 <= ss < 256
    ensures Begin(b, 256 * ss) <= Begin(b, 257 * ss) <= Begin(b, 257 * ss + 1) <= Begin(b, 256 * ss + 256) <= |b|
      && Of(ss, ss) == 257 * ss
  {
    BeginMonotone(b, 256 * ss, 257 * ss);
    BeginMonotone(b, 257 * ss, 257 * ss + 1);
    BeginMonotone(b, 257 * ss + 1, 256 * ss + 256);
  }

  /** The bucket of a place between two bucket beginnings. */
  lemma KeyBetween(b: seq<Byte>, p0: seq<int>, i: nat, lo: int, hi: int)
    requires Placed(KeysOf(b), p0) && i < |b| && Begin(b, lo) <= i < Begin(b, hi)
    ensures |p0| == |b| && 0 <= p0[i] < |b| && lo <= Key(b, p0[i]) < hi
  {
    var sb := Key(b, p0[i]);
    if sb < lo {
      BeginMonotone(b, sb + 1, lo);
    } else if sb >= hi {
      BeginMonotone(b, hi, sb);
    }
  }

  // ----- what the scan reads -----------------------------------------------

  /** first lists the part of the big bucket before the repeated byte. */
  ghost predicate FirstUp(b: seq<Byte>, p0: seq<int>, first: seq<int>, ss: int) {
    |p0| == |b| && Begin(b, 256 * ss) + |first| == Begin(b, 257 * ss)
      && forall t :: 0 <= t < |first| ==> first[t] == p0[Begin(b, 256 * ss) + t]
  }

  /** first lists the part after it, backwards. */
  ghost predicate FirstDown(b: seq<Byte>, p0: seq<int>, first: seq<int>, ss: int) {
    && |p0| == |b| && Begin(b, 256 * ss + 256) - |first| == Begin(b, 257 * ss + 1)
    && forall t :: 0 <= t < |first| ==> first[t] == p0[Begin(b, 256 * ss + 256) - 1 - t]
  }

  lemma FirstUpAt(b: seq<Byte>, p0: seq<int>, first: seq<int>, ss: int, n: nat)
    requires FirstUp(b, p0, first, ss)
    ensures |p0| == |b| && Begin(b, 256 * ss) + |first| == Begin(b, 257 * ss)
    ensures n < |first| ==> first[n] == p0[Begin(b, 256 * ss) + n]
  {
  }

  lemma FirstDownAt(b: seq<Byte>, p0: seq<int>, first: seq<int>, ss: int, n: nat)
    requires FirstDown(b, p0, first, ss)
    ensures |p0| == |b| && Begin(b, 256 * ss + 256) - |first| == Begin(b, 257 * ss + 1)
    ensures n < |first| ==> first[n] == p0[Begin(b, 256 * ss + 256) - 1 - n]
  {
  }

  /** A place of another bucket is as it was. */
  lemma OuterPlace(b: seq<Byte>, p0: seq<int>, p: seq<int>, m: Marks, L: seq<int>, R: seq<int>, ss: int, j: nat)
    requires Copying(b, p0, p, m, L, R, ss) && j < |b|
    ensures 0 <= p0[j] < |b| && (Key(b, p0[j]) % 256 != ss ==> p[j] == p0[j])
  {
    assert Untouched(b, p0, p, m, ss, j);
  }

  /** The predecessors found are where they were put. */
  lemma InnerPlace(b: seq<Byte>, p0: seq<int>, p: seq<int>, m: Marks, L: seq<int>, R: seq<int>, ss: int, t: nat)
    requires Copying(b, p0, p, m, L, R, ss) && !m.done[ss]
    ensures t < |Preds(b, L, ss)| ==>
      Begin(b, Of(ss, ss)) + t < |p| && p[Begin(b, Of(ss, ss)) + t] == Preds(b, L, ss)[t]
    ensures t < |Preds(b, R, ss)| ==>
      0 <= Begin(b, Of(ss, ss) + 1) - 1 - t < |p| && p[Begin(b, Of(ss, ss) + 1) - 1 - t] == Preds(b, R, ss)[t]
  {
    assert CopyOf(b, p, m, L, R, ss, ss);
    hide Preds, Placed;
  }

  lemma ReadUp(b: seq<Byte>, p0: seq<int>, p: seq<int>, m: Marks, first: seq<int>, L: seq<int>, R: seq<int>, ss: int,
      n: nat)
    requires Copying(b, p0, p, m, L, R, ss) && !m.done[ss] && FirstUp(b, p0, first, ss)
      && Begin(b, 256 * ss) + n < m.start[ss]
    ensures var all := first + Preds(b, L, ss);
      n < |all| && Begin(b, 256 * ss) + n < |p| && p[Begin(b, 256 * ss) + n] == all[n]
  {
    hide Copying, Preds, Begin, Key, Placed, FirstUp, Of, Listed;
    CopyingIs(b, p0, p, m, L, R, ss);
    BigParts(b, ss);
    MarksAre(b, p0, p, m, L, R, ss, ss);
    FirstUpAt(b, p0, first, ss, n);
    var j := Begin(b, 256 * ss) + n;
    if n < |first| {
      OuterPlace(b, p0, p, m, L, R, ss, j);
      KeyBetween(b, p0, j, 256 * ss, 257 * ss);
      NotRepeated(Key(b, p0[j]), ss);
    } else {
      InnerPlace(b, p0, p, m, L, R, ss, n - |first|);
    }
  }

  lemma NotRepeated(sb: int, ss: int)
    requires 0 <= ss < 256 && (256 * ss <= sb < 257 * ss || 257 * ss + 1 <= sb < 256 * ss + 256)
    ensures sb % 256 != ss
  {
    assert sb == 256 * ss + (sb - 256 * ss);
  }

  lemma ReadDown(b: seq<Byte>, p0: seq<int>, p: seq<int>, m: Marks, first: seq<int>, L: seq<int>, R: seq<int>, ss: int,
      n: nat)
    requires Copying(b, p0, p, m, L, R, ss) && !m.done[ss] && FirstDown(b, p0, first, ss)
      && Begin(b, 256 * ss + 256) - 1 - n > m.end[ss]
    ensures var all := first + Preds(b, R, ss);
      n < |all| && 0 <= Begin(b, 256 * ss + 256) - 1 - n < |p| && p[Begin(b, 256 * ss + 256) - 1 - n] == all[n]
  {
    hide Copying, Preds, Begin, Key, Placed, FirstDown, Of, Listed;
    CopyingIs(b, p0, p, m, L, R, ss);
    BigParts(b, ss);
    MarksAre(b, p0, p, m, L, R, ss, ss);
    FirstDownAt(b, p0, first, ss, n);
    var j := Begin(b, 256 * ss + 256) - 1 - n;
    if n < |first| {
      OuterPlace(b, p0, p, m, L, R, ss, j);
      KeyBetween(b, p0, j, 257 * ss + 1, 256 * ss + 256);
      NotRepeated(Key(b, p0[j]), ss);
    } else {
      InnerPlace(b, p0, p, m, L, R, ss, n - |first|);
    }
  }

  /** How many predecessors the marks say have been found. */
  lemma MarksAre(b: seq<Byte>, p0: seq<int>, p: seq<int>, m: Marks, L: seq<int>, R: seq<int>, ss: int, c: int)
    requires Copying(b, p0, p, m, L, R, ss) && 0 <= c < 256 && !m.done[c]
    ensures Listed(b, L) && Listed(b, R) && m.start[c] == Begin(b, Of(c, ss)) + |Preds(b, L, c)|
    ensures m.end[c] == Begin(b, Of(c, ss) + 1) - 1 - |Preds(b, R, c)| && m.start[c] <= m.end[c] + 1
  {
    assert CopyOf(b, p, m, L, R, ss, c);
  }

  // ----- the loops ---------------------------------------------------------

  /** k = ptr[j] - 1; if (k < 0) k += nblock; and where it goes, if anywhere */
  method CopyUp(ptr: array<int>, block: seq<Byte>, start: array<int>, x: int, ghost end: seq<int>, done: seq<bool>,
      ghost b: seq<Byte>, ghost rank: seq<int>, ghost p0: seq<int>, ss: Byte, ghost L: seq<int>)
    requires ptr != start && ptr.Length == |b| <= |block| && b == block[..|b|] && 0 <= x < |b|
    requires Copying(b, p0, ptr[..], Marks(start[..], end, done), L, [], ss)
    requires Ranked(b, rank) && OnSide(b, rank, true, ss, L + [x])
    modifies ptr, start
    ensures Copying(b, p0, ptr[..], Marks(start[..], end, done), L + [x], [], ss)
  {
    hide Copying, OnSide, Ranked;
    ghost var p, m := ptr[..], Marks(start[..], end, done);
    CopyingIs(b, p0, p, m, L, [], ss);
    var n := ptr.Length;
    var k := x - 1;
    if k < 0 {
      k := k + n;
    }
    var c := block[k];
    assert c == b[k] && k == Prev(n, x);
    if !done[c] {
      RoomUp(b, rank, p0, p, m, L, ss, x);
      CopyLeft(b, p0, p, m, L, [], ss, x);
      ptr[start[c]] := k;
      start[c] := start[c] + 1;
      assert ptr[..] == p[m.start[c] := k] && start[..] == m.start[c := m.start[c] + 1];
    } else {
      CopySkip(b, p0, p, m, L, [], ss, x);
    }
  }

  lemma RoomUp(b: seq<Byte>, rank: seq<int>, p0: seq<int>, p: seq<int>, m: Marks, L: seq<int>, ss: int, x: nat)
    requires Copying(b, p0, p, m, L, [], ss) && Ranked(b, rank) && OnSide(b, rank, true, ss, L + [x]) && x < |b|
      && !m.done[b[Prev(|b|, x)]]
    ensures m.start[b[Prev(|b|, x)]] <= m.end[b[Prev(|b|, x)]]
  {
    var c := b[Prev(|b|, x)];
    NothingOnSide(b, rank, false, ss);
    MarksAre(b, p0, p, m, L, [], ss, c);
    hide Preds, Copying, Begin;
    PredsMore(b, L, x, c);
    Room(b, rank, ss, L + [x], [], c);
  }

  lemma NothingOnSide(b: seq<Byte>, rank: seq<int>, up: bool, ss: int)
    requires Ranked(b, rank)
    ensures OnSide(b, rank, up, ss, [])
  {
  }

  method CopyDown(ptr: array<int>, block: seq<Byte>, end: array<int>, x: int, ghost start: seq<int>, done: seq<bool>,
      ghost b: seq<Byte>, ghost rank: seq<int>, ghost p0: seq<int>, ss: Byte, ghost L: seq<int>, ghost R: seq<int>)
    requires ptr != end && ptr.Length == |b| <= |block| && b == block[..|b|] && 0 <= x < |b|
    requires Copying(b, p0, ptr[..], Marks(start, end[..], done), L, R, ss)
    requires Ranked(b, rank) && OnSide(b, rank, true, ss, L) && OnSide(b, rank, false, ss, R + [x])
    modifies ptr, end
    ensures Copying(b, p0, ptr[..], Marks(start, end[..], done), L, R + [x], ss)
  {
    hide Copying, OnSide, Ranked;
    ghost var p, m := ptr[..], Marks(start, end[..], done);
    CopyingIs(b, p0, p, m, L, R, ss);
    var n := ptr.Length;
    var k := x - 1;
    if k < 0 {
      k := k + n;
    }
    var c := block[k];
    assert c == b[k] && k == Prev(n, x);
    if !done[c] {
      RoomDown(b, rank, p0, p, m, L, R, ss, x);
      CopyRight(b, p0, p, m, L, R, ss, x);
      ptr[end[c]] := k;
      end[c] := end[c] - 1;
      assert ptr[..] == p[m.end[c] := k] && end[..] == m.end[c := m.end[c] - 1];
    } else {
      CopySkip(b, p0, p, m, L, R, ss, x);
    }
  }

  lemma RoomDown(b: seq<Byte>, rank: seq<int>, p0: seq<int>, p: seq<int>, m: Marks, L: seq<int>, R: seq<int>, ss: int,
      x: nat)
    requires Copying(b, p0, p, m, L, R, ss) && Ranked(b, rank) && OnSide(b, rank, true, ss, L)
      && OnSide(b, rank, false, ss, R + [x]) && x < |b| && !m.done[b[Prev(|b|, x)]]
    ensures m.start[b[Prev(|b|, x)]] <= m.end[b[Prev(|b|, x)]]
  {
    var c := b[Prev(|b|, x)];
    MarksAre(b, p0, p, m, L, R, ss, c);
    hide Preds, Copying, Begin;
    PredsMore(b, R, x, c);
    Room(b, rank, ss, L, R + [x], c);
  }

  /** The upward scan: ends when it has seen all it produced. */
  method ScanUp(ptr: array<int>, block: seq<Byte>, start: array<int>, ghost end: seq<int>, done: seq<bool>, from: nat,
      ghost b: seq<Byte>, ghost rank: seq<int>, ghost p0: seq<int>, ghost first: seq<int>, ss: Byte)
    returns (ghost seen: seq<int>)
    requires ptr != start && ptr.Length == |b| <= |block| && b == block[..|b|] && start.Length == 256 && |end| == 256
      && |done| == 256 && !done[ss]
    requires Copying(b, p0, ptr[..], Marks(start[..], end, done), [], [], ss) && from == Begin(b, 256 * ss)
    requires Scanning(b, rank, true, ss, first, []) && FirstUp(b, p0, first, ss)
    modifies ptr, start
    ensures Copying(b, p0, ptr[..], Marks(start[..], end, done), seen, [], ss)
    ensures Scanning(b, rank, true, ss, first, seen) && b != [] && Listed(b, seen) && seen == first + Preds(b, seen, ss)
  {
    hide Copying, Scanning, FirstUp, Preds, Begin;
    seen := [];
    var j := from;
    while j < start[ss]
      invariant j == from + |seen| && Copying(b, p0, ptr[..], Marks(start[..], end, done), seen, [], ss)
        && Scanning(b, rank, true, ss, first, seen)
      decreases Begin(b, Of(ss, ss) + 1) - j
    {
      ghost var p, m := ptr[..], Marks(start[..], end, done);
      MarksAre(b, p0, p, m, seen, [], ss, ss);
      ReadUp(b, p0, p, m, first, seen, [], ss, |seen|);
      ScanOn(b, rank, true, ss, first, seen);
      ScanningIs(b, rank, true, ss, first, seen + [ptr[j]]);
      var x := ptr[j];
      CopyUp(ptr, block, start, x, end, done, b, rank, p0, ss, seen);
      seen := seen + [x];
      j := j + 1;
    }
    MarksAre(b, p0, ptr[..], Marks(start[..], end, done), seen, [], ss, ss);
    ScanEnds(b, rank, true, ss, first, seen);
    FirstUpAt(b, p0, first, ss, 0);
    BigParts(b, ss);
  }

  lemma ScanningIs(b: seq<Byte>, rank: seq<int>, up: bool, ss: int, first: seq<int>, seen: seq<int>)
    requires Scanning(b, rank, up, ss, first, seen) && seen != []
    ensures Ranked(b, rank) && OnSide(b, rank, up, ss, seen) && 0 <= seen[|seen| - 1] < |b|
  {
  }

  lemma ScanEnds(b: seq<Byte>, rank: seq<int>, up: bool, ss: int, first: seq<int>, seen: seq<int>)
    requires Scanning(b, rank, up, ss, first, seen)
    ensures b != [] && Listed(b, seen)
      && (|seen| >= |first| + |Preds(b, seen, ss)| ==> seen == first + Preds(b, seen, ss))
  {
  }

  /** The downward scan. */
  method ScanDown(ptr: array<int>, block: seq<Byte>, ghost start: seq<int>, end: array<int>, done: seq<bool>, to: nat,
      ghost b: seq<Byte>, ghost rank: seq<int>, ghost p0: seq<int>, ghost first: seq<int>, ss: Byte, ghost L: seq<int>)
    returns (ghost seen: seq<int>)
    requires ptr != end && ptr.Length == |b| <= |block| && b == block[..|b|] && |start| == 256 && end.Length == 256
      && |done| == 256 && !done[ss]
    requires Copying(b, p0, ptr[..], Marks(start, end[..], done), L, [], ss) && to == Begin(b, 256 * ss + 256)
      && OnSide(b, rank, true, ss, L)
    requires Scanning(b, rank, false, ss, first, []) && FirstDown(b, p0, first, ss)
    modifies ptr, end
    ensures Copying(b, p0, ptr[..], Marks(start, end[..], done), L, seen, ss)
    ensures Scanning(b, rank, false, ss, first, seen) && b != [] && Listed(b, seen)
      && seen == first + Preds(b, seen, ss)
  {
    hide Copying, Scanning, FirstDown, Preds, Begin, OnSide;
    seen := [];
    var j := to - 1;
    while j > end[ss]
      invariant j == to - 1 - |seen| && Copying(b, p0, ptr[..], Marks(start, end[..], done), L, seen, ss)
        && Scanning(b, rank, false, ss, first, seen)
      decreases j - Begin(b, Of(ss, ss)) + 1
    {
      ghost var p, m := ptr[..], Marks(start, end[..], done);
      MarksAre(b, p0, p, m, L, seen, ss, ss);
      ReadDown(b, p0, p, m, first, L, seen, ss, |seen|);
      ScanOn(b, rank, false, ss, first, seen);
      ScanningIs(b, rank, false, ss, first, seen + [ptr[j]]);
      var x := ptr[j];
      CopyDown(ptr, block, end, x, start, done, b, rank, p0, ss, L, seen);
      seen := seen + [x];
      j := j - 1;
    }
    MarksAre(b, p0, ptr[..], Marks(start, end[..], done), L, seen, ss, ss);
    ScanEnds(b, rank, false, ss, first, seen);
    FirstDownAt(b, p0, first, ss, 0);
    BigParts(b, ss);
  }

  // ----- what the scans start from -----------------------------------------

  /** All small buckets of ss but the one of the repeated byte are in order. */
  ghost predicate OuterSorted(b: seq<Byte>, rank: seq<int>, p: seq<int>, ss: int) {
    forall sb :: 256 * ss <= sb < 256 * ss + 256 && sb != 257 * ss ==> BucketSorted(b, rank, p, sb)
  }

  /** Two places of the big bucket on the same side of the repeated byte. */
  lemma OuterPair(b: seq<Byte>, rank: seq<int>, p0: seq<int>, ss: int, i: nat, j: nat, lo: int, hi: int)
    requires Ranked(b, rank) && Placed(KeysOf(b), p0) && OuterSorted(b, rank, p0, ss) && 0 <= ss < 256
    requires 256 * ss <= lo <= hi <= 256 * ss + 256 && (hi <= 257 * ss || lo > 257 * ss)
      && Begin(b, lo) <= i < j < Begin(b, hi)
    ensures |p0| == |b| == |rank| && 0 <= p0[i] < |b| && 0 <= p0[j] < |b| && p0[i] != p0[j]
      && rank[p0[i]] <= rank[p0[j]]
  {
    KeyBetween(b, p0, i, lo, hi);
    KeyBetween(b, p0, j, lo, hi);
    PlaceOf(b, p0, i);
    PlaceOf(b, p0, j);
    PlacedDistinct(b, p0, i, j);
    RankedLength(b, rank);
    hide Placed, Ranked, Begin, Key;
    var k, m := Key(b, p0[i]), Key(b, p0[j]);
    if k == m {
      assert BucketSorted(b, rank, p0, k);
      assert Ord(rank, p0, i, j);
    } else if k < m {
      KeyOrder(b, rank, p0[i], p0[j]);
    } else {
      BeginMonotone(b, m + 1, k);
    }
  }

  lemma SideOfKey(b: seq<Byte>, ss: int, x: nat)
    requires x < |b| && 0 <= ss < 256
    ensures 256 * ss <= Key(b, x) < 257 * ss ==> b[x] == ss && Side(b, ss, true, x)
    ensures 257 * ss < Key(b, x) < 256 * ss + 256 ==> b[x] == ss && Side(b, ss, false, x)
  {
    assert At(b, x) == b[x];
    if 256 * ss <= Key(b, x) < 257 * ss {
      assert RunThen(b, ss, true, x, 1);
    } else if 257 * ss < Key(b, x) < 256 * ss + 256 {
      assert RunThen(b, ss, false, x, 1);
    }
  }

  /** The part of the big bucket on one side, in the order of that scan. */
  ghost function OuterPart(b: seq<Byte>, p0: seq<int>, up: bool, ss: int): (first: seq<int>)
    requires |p0| == |b| && 0 <= ss < 256
    ensures if up then FirstUp(b, p0, first, ss) else FirstDown(b, p0, first, ss)
  {
    BigParts(b, ss);
    var to := Begin(b, 256 * ss + 256);
    if up then p0[Begin(b, 256 * ss)..Begin(b, 257 * ss)]
    else seq(to - Begin(b, 257 * ss + 1), t requires 0 <= t < to - Begin(b, 257 * ss + 1) => p0[to - 1 - t])
  }

  /** Where entry t of that part is. */
  ghost function OuterPlaceOf(b: seq<Byte>, up: bool, ss: int, t: int): int {
    if up then Begin(b, 256 * ss) + t else Begin(b, 256 * ss + 256) - 1 - t
  }

  lemma OuterEntry(b: seq<Byte>, rank: seq<int>, p0: seq<int>, up: bool, ss: int, t: nat)
    requires Ranked(b, rank) && Placed(KeysOf(b), p0) && 0 <= ss < 256 && t < |OuterPart(b, p0, up, ss)|
    ensures var x := OuterPart(b, p0, up, ss)[t];
      0 <= x < |b| && b[x] == ss && Side(b, ss, up, x) && if up then Key(b, x) < 257 * ss else Key(b, x) > 257 * ss
  {
    BigParts(b, ss);
    hide Key, Side, Begin;
    var i := OuterPlaceOf(b, up, ss, t);
    assert OuterPart(b, p0, up, ss)[t] == p0[i];
    if up {
      KeyBetween(b, p0, i, 256 * ss, 257 * ss);
    } else {
      KeyBetween(b, p0, i, 257 * ss + 1, 256 * ss + 256);
    }
    SideOfKey(b, ss, p0[i]);
  }

  lemma OuterAt(b: seq<Byte>, p0: seq<int>, up: bool, ss: int, t: nat)
    requires |p0| == |b| && 0 <= ss < 256 && t < |OuterPart(b, p0, up, ss)|
    ensures var i := OuterPlaceOf(b, up, ss, t);
      && 0 <= i < |b| && OuterPart(b, p0, up, ss)[t] == p0[i]
      && if up then Begin(b, 256 * ss) <= i < Begin(b, 257 * ss)
        else Begin(b, 257 * ss + 1) <= i < Begin(b, 256 * ss + 256)
  {
    BigParts(b, ss);
    hide Begin;
  }

  lemma OuterTwo(b: seq<Byte>, rank: seq<int>, p0: seq<int>, up: bool, ss: int, t: nat, u: nat)
    requires Ranked(b, rank) && Placed(KeysOf(b), p0) && OuterSorted(b, rank, p0, ss) && 0 <= ss < 256
      && t < u < |OuterPart(b, p0, up, ss)|
    ensures var first := OuterPart(b, p0, up, ss);
      |rank| == |b| && 0 <= first[t] < |b| && 0 <= first[u] < |b| && first[t] != first[u]
        && Leq(rank, up, first[t], first[u])
  {
    hide Begin, Key, OuterSorted, Ranked, Placed, OuterPart;
    BigParts(b, ss);
    OuterAt(b, p0, up, ss, t);
    OuterAt(b, p0, up, ss, u);
    var i, j := OuterPlaceOf(b, up, ss, t), OuterPlaceOf(b, up, ss, u);
    if up {
      OuterPair(b, rank, p0, ss, i, j, 256 * ss, 257 * ss);
    } else {
      OuterPair(b, rank, p0, ss, j, i, 257 * ss + 1, 256 * ss + 256);
    }
  }

  /** The scans can start. */
  lemma ScanStarts(b: seq<Byte>, rank: seq<int>, p0: seq<int>, up: bool, ss: int)
    requires Ranked(b, rank) && Placed(KeysOf(b), p0) && OuterSorted(b, rank, p0, ss) && 0 <= ss < 256
    ensures Scanning(b, rank, up, ss, OuterPart(b, p0, up, ss), [])
  {
    RankedLength(b, rank);
    hide Placed, Ranked, OuterSorted, Side, Key, OuterPart;
    var first := OuterPart(b, p0, up, ss);
    forall t | 0 <= t < |first|
      ensures 0 <= first[t] < |b| && b[first[t]] == ss && Side(b, ss, up, first[t])
        && if up then Key(b, first[t]) < 257 * ss else Key(b, first[t]) > 257 * ss
    {
      OuterEntry(b, rank, p0, up, ss, t);
    }
    forall t, u | 0 <= t < u < |first| ensures first[t] != first[u] && Leq(rank, up, first[t], first[u]) {
      OuterTwo(b, rank, p0, up, ss, t, u);
    }
  }

  /** Nothing of that part is missing. */
  lemma OuterComplete(b: seq<Byte>, p0: seq<int>, up: bool, ss: int, x: nat)
    requires Placed(KeysOf(b), p0) && 0 <= ss < 256 && x < |b| && b[x] == ss
      && if up then Key(b, x) < 257 * ss else Key(b, x) > 257 * ss
    ensures x in OuterPart(b, p0, up, ss)
  {
    assert At(b, x) == ss;
    var j := InBucket(b, p0, x);
    BigParts(b, ss);
    var first := OuterPart(b, p0, up, ss);
    if up {
      BeginMonotone(b, 256 * ss, Key(b, x));
      BeginMonotone(b, Key(b, x) + 1, 257 * ss);
      assert first[j - Begin(b, 256 * ss)] == x;
    } else {
      BeginMonotone(b, 257 * ss + 1, Key(b, x));
      BeginMonotone(b, Key(b, x) + 1, 256 * ss + 256);
      assert first[Begin(b, 256 * ss + 256) - 1 - j] == x;
    }
  }

  /** What both scans together have seen, if the block has another byte. */
  lemma BothComplete(b: seq<Byte>, rank: seq<int>, p0: seq<int>, ss: int, L: seq<int>, R: seq<int>, z: nat)
    requires Placed(KeysOf(b), p0) && 0 <= ss < 256 && z < |b| && b[z] != ss && Listed(b, L) && Listed(b, R)
    requires Scanning(b, rank, true, ss, OuterPart(b, p0, true, ss), L)
      && L == OuterPart(b, p0, true, ss) + Preds(b, L, ss)
    requires Scanning(b, rank, false, ss, OuterPart(b, p0, false, ss), R)
      && R == OuterPart(b, p0, false, ss) + Preds(b, R, ss)
    ensures Swept(b, rank, ss, L, R)
  {
    hide Preds, Placed, OuterPart, Key, Ordered;
    forall x | 0 <= x < |b| && b[x] == ss ensures x in L || x in R {
      EitherSide(b, ss, x, z);
      if Side(b, ss, true, x) {
        SeenOnSide(b, rank, p0, true, ss, L, x);
      } else {
        SeenOnSide(b, rank, p0, false, ss, R, x);
      }
    }
  }

  lemma SeenOnSide(b: seq<Byte>, rank: seq<int>, p0: seq<int>, up: bool, ss: int, seen: seq<int>, x: nat)
    requires Placed(KeysOf(b), p0) && 0 <= ss < 256 && x < |b| && Side(b, ss, up, x) && Listed(b, seen)
    requires Scanning(b, rank, up, ss, OuterPart(b, p0, up, ss), seen)
      && seen == OuterPart(b, p0, up, ss) + Preds(b, seen, ss)
    ensures x in seen
  {
    var m: nat :| RunThen(b, ss, up, x, m);
    hide Preds, Placed, OuterPart, Key, Scanning, RunThen;
    forall y | 0 <= y < |b| && b[y] == ss && (if up then Key(b, y) < 257 * ss else Key(b, y) > 257 * ss)
      ensures y in OuterPart(b, p0, up, ss)
    {
      OuterComplete(b, p0, up, ss, y);
    }
    ScanComplete(b, rank, up, ss, OuterPart(b, p0, up, ss), seen, x, m);
  }
}
