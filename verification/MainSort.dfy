/** The main sort: big buckets one after the other, smallest first. */
module MainSort {
  import opened Rotations
  import opened Radix
  import opened FallbackQSort
  import opened MainSimpleSort
  import opened MainBuckets
  import opened MainScan
  import opened MainCopy
  import opened MainCopied
  import opened MainSweep

  const SETMASK := 0x20_0000

  /** ftab[sb] & CLEARMASK */
  function Clear(v: int): int {
    v % SETMASK
  }

  /** ftab[sb] |= SETMASK, for a value below 2^22 */
  function Set(v: int): int {
    if v < SETMASK then v + SETMASK else v
  }

  /** The table holds bucket beginnings, marked where the bucket is in order. */
  ghost predicate Table(b: seq<Byte>, ftab: seq<int>) {
    |ftab| == 65537 && |b| < SETMASK
      && forall sb :: 0 <= sb <= 65536 ==> 0 <= ftab[sb] < 2 * SETMASK && Clear(ftab[sb]) == Begin(b, sb)
  }

  lemma SetKeeps(b: seq<Byte>, ftab: seq<int>, sb: nat)
    requires Table(b, ftab) && sb <= 65536
    ensures Table(b, ftab[sb := Set(ftab[sb])]) && Set(ftab[sb]) >= SETMASK
  {
  }

  // ----- step 2 ------------------------------------------------------------

  /** Nothing copied yet. */
  lemma CopyBegins(b: seq<Byte>, p0: seq<int>, m: Marks, ss: int)
    requires b != [] && Placed(KeysOf(b), p0) && m.Sized() && 0 <= ss < 256
    requires forall c :: 0 <= c < 256 ==> m.start[c] == Begin(b, Of(c, ss)) && m.end[c] == Begin(b, Of(c, ss) + 1) - 1
    ensures Copying(b, p0, p0, m, [], [], ss)
  {
    forall c | 0 <= c < 256 && !m.done[c] ensures CopyOf(b, p0, m, [], [], ss, c) {
      BeginMonotone(b, Of(c, ss), Of(c, ss) + 1);
    }
  }

  /** In a block of one byte value nothing is seen and nothing moves. */
  lemma NothingSeen(b: seq<Byte>, rank: seq<int>, up: bool, ss: int, s: seq<int>)
    requires OnSide(b, rank, up, ss, s) && forall x :: 0 <= x < |b| ==> b[x] == ss
    ensures s == []
  {
    if s != [] {
      NoSide(b, ss, up, s[0]);
    }
  }

  lemma NoSide(b: seq<Byte>, ss: int, up: bool, x: nat)
    requires b != [] && forall z :: 0 <= z < |b| ==> b[z] == ss
    ensures !Side(b, ss, up, x)
  {
    forall m: nat ensures !RunThen(b, ss, up, x, m) {
      assert At(b, x + m) == ss;
    }
  }

  lemma NothingMoved(b: seq<Byte>, p0: seq<int>, p: seq<int>, m: Marks, ss: int)
    requires Copying(b, p0, p, m, [], [], ss)
    ensures p == p0
  {
    forall i | 0 <= i < |b| ensures p[i] == p0[i] {
      StaysPut(b, p0, p, m, ss, i);
    }
    CopyingIs(b, p0, p, m, [], [], ss);
  }

  lemma StaysPut(b: seq<Byte>, p0: seq<int>, p: seq<int>, m: Marks, ss: int, i: nat)
    requires Copying(b, p0, p, m, [], [], ss) && i < |b|
    ensures p[i] == p0[i]
  {
    CopyingIs(b, p0, p, m, [], [], ss);
    PlaceOf(b, p0, i);
    hide Placed;
    assert Untouched(b, p0, p, m, ss, i);
    var sb := Key(b, p0[i]);
    if Fills(m, ss, sb) {
      OfParts(sb);
      MarksAre(b, p0, p, m, [], [], ss, sb / 256);
    }
  }

  lemma AllRanksEqual(b: seq<Byte>, rank: seq<int>, ss: int, x: nat, y: nat)
    requires Ranked(b, rank) && x < |b| && y < |b| && 0 <= ss < 256 && forall z :: 0 <= z < |b| ==> b[z] == ss
    ensures rank[x] == rank[y]
  {
    AllSame(b, ss, x, y, |b|);
    Trichotomy(b, x, y, |b|);
  }

  lemma AllSorted(b: seq<Byte>, rank: seq<int>, p: seq<int>, ss: int, sb: int)
    requires Ranked(b, rank) && Placed(KeysOf(b), p) && 0 <= ss < 256 && forall z :: 0 <= z < |b| ==> b[z] == ss
    ensures BucketSorted(b, rank, p, sb)
  {
    CopiedRange(b, rank, p);
    hide Placed, Ranked;
    forall i, j | Begin(b, sb) <= i < j <= Begin(b, sb + 1) - 1 ensures Ord(rank, p, i, j) {
      AllRanksEqual(b, rank, ss, p[i], p[j]);
    }
  }

  /** What step 2 leaves: the order is placed, the buckets [c, ss] of big buckets
      not done are in order, all other places are as before. */
  ghost predicate Sweeped(b: seq<Byte>, rank: seq<int>, p0: seq<int>, p: seq<int>, done: seq<bool>, ss: int) {
    && b != [] && |done| == 256 && |p0| == |b| && Placed(KeysOf(b), p)
    && (forall c :: 0 <= c < 256 && !done[c] ==> BucketSorted(b, rank, p, Of(c, ss)))
    && (forall i :: 0 <= i < |b| ==> 0 <= p0[i] < |b| && (Key(b, p0[i]) % 256 != ss || done[Key(b, p0[i]) / 256] ==> p[i] == p0[i]))
  }

  lemma SweptResult(b: seq<Byte>, rank: seq<int>, p0: seq<int>, p: seq<int>, m: Marks, L: seq<int>, R: seq<int>,
      ss: int)
    requires Copying(b, p0, p, m, L, R, ss) && Swept(b, rank, ss, L, R)
    ensures Sweeped(b, rank, p0, p, m.done, ss)
  {
    CopiedPlaced(b, rank, p0, p, m, L, R, ss);
    CopyingIs(b, p0, p, m, L, R, ss);
    PlacedLength(b, p0);
    hide Copying, Swept, Placed, BucketSorted;
    forall c | 0 <= c < 256 && !m.done[c] ensures BucketSorted(b, rank, p, Of(c, ss)) {
      CopiedSorted(b, rank, p0, p, m, L, R, ss, c);
    }
  }

  lemma PlacedLength(b: seq<Byte>, p: seq<int>)
    requires Placed(KeysOf(b), p)
    ensures |p| == |b|
  {
  }

  lemma UniformResult(b: seq<Byte>, rank: seq<int>, p0: seq<int>, p: seq<int>, m: Marks, ss: int)
    requires Ranked(b, rank) && Copying(b, p0, p, m, [], [], ss) && forall z :: 0 <= z < |b| ==> b[z] == ss
    ensures Sweeped(b, rank, p0, p, m.done, ss)
  {
    NothingMoved(b, p0, p, m, ss);
    CopyingIs(b, p0, p, m, [], [], ss);
    PlacedLength(b, p0);
    hide Copying, BucketSorted;
    forall c | 0 <= c < 256 && !m.done[c] ensures BucketSorted(b, rank, p, Of(c, ss)) {
      AllSorted(b, rank, p, ss, Of(c, ss));
    }
  }

  /** copyStart and copyEnd */
  method CopyTables(ftab: array<int>, start: array<int>, end: array<int>, ss: Byte, ghost b: seq<Byte>)
    requires start != end && start != ftab && end != ftab && start.Length == 256 && end.Length == 256
      && Table(b, ftab[..])
    modifies start, end
    ensures forall c :: 0 <= c < 256 ==> start[c] == Begin(b, Of(c, ss)) && end[c] == Begin(b, Of(c, ss) + 1) - 1
  {
    hide Begin;
    for j := 0 to 256
      invariant Table(b, ftab[..])
      invariant forall c :: 0 <= c < j ==> start[c] == Begin(b, Of(c, ss)) && end[c] == Begin(b, Of(c, ss) + 1) - 1
    {
      start[j] := Clear(ftab[Of(j, ss)]);
      end[j] := Clear(ftab[Of(j, ss) + 1]) - 1;
    }
  }

  /** Step 2: synthesise the order of all small buckets [c, ss], the bucket of
      the repeated byte included. */
  method Sweep(ptr: array<int>, block: seq<Byte>, ftab: array<int>, done: seq<bool>, ss: Byte, ghost b: seq<Byte>,
      ghost rank: seq<int>)
    requires ptr != ftab && ptr.Length == |b| <= |block| && b == block[..|b|] && b != [] && |done| == 256 && !done[ss]
    requires Table(b, ftab[..]) && Ranked(b, rank) && Placed(KeysOf(b), ptr[..]) && OuterSorted(b, rank, ptr[..], ss)
    modifies ptr
    ensures Sweeped(b, rank, old(ptr[..]), ptr[..], done, ss)
    ensures Uniform(b) ==> ptr[..] == old(ptr[..])
  {
    hide Placed, Ranked, OuterSorted, Copying, Scanning, Sweeped, Swept, Begin, FirstUp, FirstDown, OuterPart, Preds,
      OnSide;
    ghost var p0 := ptr[..];
    var start, end := new int[256], new int[256];
    CopyTables(ftab, start, end, ss, b);
    var from, to := Clear(ftab[256 * ss as int]), Clear(ftab[256 * (ss as int) + 256]);
    CopyBegins(b, p0, Marks(start[..], end[..], done), ss);
    ScanStarts(b, rank, p0, true, ss);
    ScanStarts(b, rank, p0, false, ss);
    ghost var L := ScanUp(ptr, block, start, end[..], done, from, b, rank, p0, OuterPart(b, p0, true, ss), ss);
    ScanSide(b, rank, true, ss, OuterPart(b, p0, true, ss), L);
    ghost var R := ScanDown(ptr, block, start[..], end, done, to, b, rank, p0, OuterPart(b, p0, false, ss), ss, L);
    ScanSide(b, rank, false, ss, OuterPart(b, p0, false, ss), R);
    SweepEnds(b, rank, p0, ptr[..], Marks(start[..], end[..], done), ss, L, R);
    UnmovedIfUniform(b, rank, p0, ptr[..], done, ss);
    assert start[ss] - 1 == end[ss] || (start[ss] == 0 && end[ss] == |b| - 1);  // AssertH 1007
  }

  /** One repeated byte: all rotations are in one bucket, which is left alone. */
  lemma UnmovedIfUniform(b: seq<Byte>, rank: seq<int>, p0: seq<int>, p: seq<int>, done: seq<bool>, ss: Byte)
    requires Sweeped(b, rank, p0, p, done, ss) && ((forall z :: 0 <= z < |b| ==> b[z] == ss) ==> p == p0)
    ensures Uniform(b) ==> p == p0
  {
    if Uniform(b) && b[0] != ss {
      PlacedLength(b, p);
      hide Placed, BucketSorted;
      forall i | 0 <= i < |b| ensures p[i] == p0[i] {
        UniformKey(b, p0[i]);
      }
    }
  }

  lemma ScanSide(b: seq<Byte>, rank: seq<int>, up: bool, ss: int, first: seq<int>, seen: seq<int>)
    requires Scanning(b, rank, up, ss, first, seen)
    ensures OnSide(b, rank, up, ss, seen) && Ranked(b, rank)
  {
  }

  lemma SweepEnds(b: seq<Byte>, rank: seq<int>, p0: seq<int>, p: seq<int>, m: Marks, ss: int, L: seq<int>, R: seq<int>)
    requires Copying(b, p0, p, m, L, R, ss) && Placed(KeysOf(b), p0) && 0 <= ss < 256 && Listed(b, L) && Listed(b, R)
      && !m.done[ss]
    requires Scanning(b, rank, true, ss, OuterPart(b, p0, true, ss), L)
      && L == OuterPart(b, p0, true, ss) + Preds(b, L, ss)
    requires Scanning(b, rank, false, ss, OuterPart(b, p0, false, ss), R)
      && R == OuterPart(b, p0, false, ss) + Preds(b, R, ss)
    ensures Sweeped(b, rank, p0, p, m.done, ss)
    ensures m.start[ss] - 1 == m.end[ss] || (m.start[ss] == 0 && m.end[ss] == |b| - 1)
    ensures (forall z :: 0 <= z < |b| ==> b[z] == ss) ==> p == p0
  {
    hide Placed, Ranked, Copying, Scanning, Sweeped, Swept, Begin, OuterPart, Preds, OnSide;
    ScanSide(b, rank, true, ss, OuterPart(b, p0, true, ss), L);
    ScanSide(b, rank, false, ss, OuterPart(b, p0, false, ss), R);
    MarksAre(b, p0, p, m, L, R, ss, ss);
    if z :| 0 <= z < |b| && b[z] != ss {
      BothComplete(b, rank, p0, ss, L, R, z);
      SweptResult(b, rank, p0, p, m, L, R, ss);
      SweptIs(b, rank, ss, L, R);
      FilledExactly(b, rank, ss, L, R, ss);
    } else {
      NothingSeen(b, rank, true, ss, L);
      NothingSeen(b, rank, false, ss, R);
      NothingMoved(b, p0, p, m, ss);
      UniformResult(b, rank, p0, p, m, ss);
      UniformBegin(b, ss);
      NoPreds(b, ss);
    }
  }

  lemma SweptIs(b: seq<Byte>, rank: seq<int>, ss: int, L: seq<int>, R: seq<int>)
    requires Swept(b, rank, ss, L, R)
    ensures SeenAll(b, ss, L, R)
  {
  }

  lemma NoPreds(b: seq<Byte>, c: int)
    requires b != []
    ensures Preds(b, [], c) == []
  {
  }

  lemma UniformBegin(b: seq<Byte>, ss: int)
    requires b != [] && 0 <= ss < 256 && forall z :: 0 <= z < |b| ==> b[z] == ss
    ensures Begin(b, Of(ss, ss)) == 0 && Begin(b, Of(ss, ss) + 1) == |b|
  {
    forall x | 0 <= x < |b| ensures KeysOf(b)[x] == Of(ss, ss) {
      assert At(b, x) == ss && At(b, x + 1) == ss;
    }
    SmallerBound(KeysOf(b), Of(ss, ss), |b|);
    SmallerBound(KeysOf(b), Of(ss, ss) + 1, |b|);
  }
}
