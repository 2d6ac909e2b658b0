/** BZ2_blockSort: the fallback sort for short blocks and for those the main
    sort gives up on. */
module BlockSort {
  import opened Permutations
  import opened Sizes
  import opened Rotations
  import opened Radix
  import opened RadixSort
  import opened WordBytes
  import opened FallbackQSort
  import FallbackSort
  import FallbackStack
  import opened MainCompare
  import opened MainSimpleSort
  import opened MainBuckets
  import opened MainSort
  import opened MainLoop
  import opened MainRadix
  import opened MainQuadrants
  import opened Bwt
  import opened MainOrder

  /** BIGFREQ */
  method BigSizes(ftab: array<int>) returns (sizes: seq<int>)
    requires ftab.Length == 65537
    ensures |sizes| == 256 && forall c :: 0 <= c < 256 ==> sizes[c] == ftab[256 * c + 256] - ftab[256 * c]
  {
    sizes := [];
    for c := 0 to 256
      invariant |sizes| == c && forall d :: 0 <= d < c ==> sizes[d] == ftab[256 * d + 256] - ftab[256 * d]
    {
      sizes := sizes + [ftab[256 * c + 256] - ftab[256 * c]];
    }
  }

  lemma MainBegins(b: seq<Byte>, rank: seq<int>, p: seq<int>, ftab: seq<int>)
    requires Ranked(b, rank) && Placed(KeysOf(b), p) && |b| < SETMASK && |ftab| == 65537
      && forall sb :: 0 <= sb <= 65536 ==> ftab[sb] == Begin(b, sb)
    ensures Progress(b, rank, p, ftab, seq(256, i => false))
  {
    hide Placed, Ranked;
    forall sb | 0 <= sb <= 65536 ensures 0 <= ftab[sb] < SETMASK && Clear(ftab[sb]) == Begin(b, sb) {
      BeginLimit(b, sb);
    }
  }

  /** Big buckets come in the order of how often their byte occurs. */
  ghost predicate BySize(b: seq<Byte>, running: seq<Byte>) {
    |running| == 256 && IsPerm(running)
      && forall i, j :: 0 <= i < j < 256 ==> Count(b, running[i], |b|) <= Count(b, running[j], |b|)
  }

  lemma RunningBySize(b: seq<Byte>, sizes: seq<int>, running: seq<int>)
    requires |sizes| == 256 && |running| == 256 && IsPerm(running) && InRange(running, 256)
      && SortedRange(sizes, running, 0, 255)
    requires forall c :: 0 <= c < 256 ==> sizes[c] == Begin(b, 256 * c + 256) - Begin(b, 256 * c)
    ensures BySize(b, running)
  {
    forall i, j | 0 <= i < j < 256 ensures Count(b, running[i], |b|) <= Count(b, running[j], |b|) {
      BigSize(b, running[i]);
      BigSize(b, running[j]);
      hide Begin, Count;
      assert Ord(sizes, running, i, j);
    }
  }

  /** c occurs, at most twice, and every other byte that occurs does so more
      often; there is at least one. */
  ghost predicate Rarest(b: seq<Byte>, c: Byte) {
    && 0 < Count(b, c, |b|) <= 2
      && (forall x: Byte :: x == c || Count(b, x, |b|) == 0 || Count(b, x, |b|) > Count(b, c, |b|))
    && exists x: Byte :: Count(b, x, |b|) > Count(b, c, |b|)
  }

  lemma RarestFirst(b: seq<Byte>, running: seq<Byte>, c: Byte) returns (f: nat)
    requires BySize(b, running) && Rarest(b, c)
    ensures f < 255 && running[f] == c && FirstPair(b, running, f)
  {
    hide Count;
    f := Where(running, c);
    var x: Byte :| Count(b, x, |b|) > Count(b, c, |b|);
    var g := Where(running, x);
    assert f < g;
  }

  /** mainSort: if the budget lasts, the order lists all rotations in order. Only
      the overshoot area of the block is written to. The quadrants mean what they
      are documented to mean exactly if all buckets that were cached are steady;
      if the budget lasts, all are but a largest one. One repeated byte is left in
      its own order. */
  method Sort(ptr: array<int>, block: array<Byte>, quadrant: array<int>, ftab: array<int>, n: nat, ghost b: seq<Byte>,
      budget0: int)
    returns (budget: int, ghost cached: set<int>, ghost largest: Byte)
    requires ptr != quadrant && ptr != ftab && quadrant != ftab && BZ_N_OVERSHOOT <= n == |b| < SETMASK
      && ptr.Length == n && ftab.Length == 65537 && budget0 >= 0
    requires block.Length == n + BZ_N_OVERSHOOT == quadrant.Length && block[..n] == b
    modifies ptr, block, quadrant, ftab
    ensures block[..n] == b && (budget >= 0 ==> SortedRotations(b, ptr[..]))
    ensures Decided(b, quadrant[..]) <==> forall c: Byte :: c in cached ==> Steady(b, c)
    ensures budget >= 0 ==> forall c: Byte :: c in cached <==> c != largest
    ensures forall c: Byte :: Count(b, c, |b|) <= Count(b, largest, |b|)
    ensures Uniform(b) ==> budget == budget0 && forall i :: 0 <= i < n ==> ptr[i] == i
    ensures budget0 >= Cost(n) ==> forall c: Byte :: Rarest(b, c) ==> c in cached
  {
    hide Continued, QuadrantsContinued, NotAgainst, Placed, Begin, Progress, SortedRotations, Ranked, SortedRange,
      Cached, IsNext, Uniform, Count, Decided, Steady, BySize, Rarest, Cost, FirstPair;
    CountPairs(block, quadrant, ftab, n, b);
    Overshoot(block, quadrant, n, b);
    SumCounts(ftab, KeysOf(b));
    DropPairs(ptr, block, ftab, n, b);
    ghost var dropped := ptr[..];
    var sizes := BigSizes(ftab);
    var running := RunningOrder(sizes);
    RunningBySize(b, sizes, running);
    ghost var rank := RankOf(b);
    MainBegins(b, rank, ptr[..], ftab[..]);
    NothingCached(block[..], quadrant[..], b);
    budget, cached := AllBuckets(ptr, block[..], quadrant, ftab, running, b, rank, budget0);
    CachedDecided(block[..], quadrant[..], b, cached);
    largest := running[255];
    SortEnds(b, running, dropped, cached, budget0);
  }

  lemma SortEnds(b: seq<Byte>, running: seq<Byte>, dropped: seq<int>, cached: set<int>, budget0: int)
    requires BySize(b, running) && IsNext(KeysOf(b), dropped)
    requires budget0 >= Cost(|b|) ==> forall f :: 0 <= f < 255 && FirstPair(b, running, f) ==> running[f] in cached
    ensures Uniform(b) ==> forall i :: 0 <= i < |b| ==> dropped[i] == i
    ensures forall c: Byte :: Count(b, c, |b|) <= Count(b, running[255], |b|)
    ensures budget0 >= Cost(|b|) ==> forall c: Byte :: Rarest(b, c) ==> c in cached
  {
    hide Count, Cost, FirstPair, Rarest, IsNext;
    if Uniform(b) {
      UniformDropped(b, dropped);
    }
    forall c: Byte ensures Count(b, c, |b|) <= Count(b, running[255], |b|) {
      var f := Where(running, c);
    }
    forall c: Byte | budget0 >= Cost(|b|) && Rarest(b, c) ensures c in cached {
      var f := RarestFirst(b, running, c);
    }
  }

  /** The block in the words the fallback sort works on. */
  method Load(words: array<int>, block: seq<Byte>)
    requires words.Length == |block|
    modifies words
    ensures Holds(words[..], block)
  {
    hide GetByte, PutByte;
    for i := 0 to |block|
      invariant forall k :: 0 <= k < i ==> GetByte(words[..], k) == block[k]
    {
      ghost var was := words[..];
      forall k | 0 <= k < i + 1 ensures GetByte(PutByte(was, i, block[i]), k) == block[k] {
        PutGet(was, i, block[i], k);
      }
      words[i / 4] := WithByte(words[i / 4], i % 4, block[i]);
      PutIs(was, words[..], i, block[i]);
    }
  }

  lemma PutIs(was: seq<int>, now: seq<int>, i: nat, c: Byte)
    requires i < 4 * |was| && now == was[i / 4 := WithByte(was[i / 4], i % 4, c)]
    ensures now == PutByte(was, i, c)
  {
  }

  method Fallback(ptr: array<int>, b: seq<Byte>)
    requires 0 < ptr.Length == |b| <= FallbackStack.INT_RANGE
    modifies ptr
    ensures SortedRotations(b, ptr[..])
    ensures Uniform(b) ==> forall i :: 0 <= i < |b| ==> ptr[i] == |b| - 1 - i
  {
    hide SortedRotations, Holds, Uniform;
    var n := |b|;
    var eclass, bh := new int[n], new bool[32 * (3 + n / 32)];
    Load(eclass, b);
    FallbackSort.Sort(ptr, eclass, bh, b);
  }

  /** BZ2_blockSort, up to the search for the origin: whatever the size of the
      block and the work factor, the rotations are sorted. */
  method SortBlock(ptr: array<int>, b: seq<Byte>, workFactor: int)
    requires 0 < ptr.Length == |b| <= 900000
    modifies ptr
    ensures SortedRotations(b, ptr[..])
    ensures Uniform(b) ==> forall i :: 0 <= i < |b| ==> ptr[i] == if |b| < 10000 then |b| - 1 - i else i
  {
    hide SortedRotations, Uniform, Decided, Steady, Count, Rarest, Cost;
    var n := |b|;
    if n < 10000 {
      Fallback(ptr, b);
      return;
    }
    var wfact := if workFactor < 1 then 1 else if workFactor > 100 then 100 else workFactor;
    var budget := n * ((wfact - 1) / 3);
    var block := new Byte[n + BZ_N_OVERSHOOT](i => if 0 <= i < n then b[i] else 0);
    var quadrant, ftab := new int[n + BZ_N_OVERSHOOT], new int[65537];
    assert block[..n] == b;
    ghost var cached, largest;
    budget, cached, largest := Sort(ptr, block, quadrant, ftab, n, b, budget);
    if budget < 0 {
      Fallback(ptr, b);
    }
  }
}
