/** The loop over the big buckets: sort what is left of one, scan it, cache its
    order. */
module MainLoop {
  import opened Permutations
  import opened Sizes
  import opened Rotations
  import opened Radix
  import opened Bwt
  import opened FallbackQSort
  import opened MainCompare
  import opened MainSimpleSort
  import opened MainQSort3
  import opened MainRepeats
  import opened MainQuadrants
  import opened MainBuckets
  import opened MainCopy
  import opened MainCopied
  import opened MainSweep
  import opened MainSort

  /** Marked buckets are in order. */
  ghost predicate MarkedSorted(b: seq<Byte>, rank: seq<int>, p: seq<int>, ftab: seq<int>)
    requires |ftab| == 65537
  {
    forall sb :: 0 <= sb < 65536 && ftab[sb] >= SETMASK ==> BucketSorted(b, rank, p, sb)
  }

  /** All small buckets of big bucket t are marked. */
  ghost predicate BigMarked(ftab: seq<int>, t: int)
    requires |ftab| == 65537 && 0 <= t < 256
  {
    forall sb :: 256 * t <= sb < 256 * t + 256 ==> ftab[sb] >= SETMASK
  }

  ghost predicate Progress(b: seq<Byte>, rank: seq<int>, p: seq<int>, ftab: seq<int>, done: seq<bool>) {
    && Ranked(b, rank) && Placed(KeysOf(b), p) && Table(b, ftab) && |done| == 256 && MarkedSorted(b, rank, p, ftab)
    && forall t :: 0 <= t < 256 && done[t] ==> BigMarked(ftab, t)
  }

  // ----- step 1 ------------------------------------------------------------

  /** A bucket whose places did not change is still in order. */
  lemma BucketKept(b: seq<Byte>, rank: seq<int>, p: seq<int>, p': seq<int>, sb: int)
    requires BucketSorted(b, rank, p, sb) && |p'| == |b| && InRange(p', |rank|)
      && forall i :: Begin(b, sb) <= i < Begin(b, sb + 1) ==> p'[i] == p[i]
    ensures BucketSorted(b, rank, p', sb)
  {
    forall i, j | Begin(b, sb) <= i < j <= Begin(b, sb + 1) - 1 ensures Ord(rank, p', i, j) {
      assert Ord(rank, p, i, j);
    }
  }

  /** Rearranging within one bucket keeps the order placed. */
  lemma PlacedWithin(b: seq<Byte>, p: seq<int>, p': seq<int>, sb: int, lo: nat, hi: nat)
    requires b != [] && Placed(KeysOf(b), p) && Permuted(p, p', lo, hi) && lo == Begin(b, sb)
      && hi == Begin(b, sb + 1) - 1
    ensures Placed(KeysOf(b), p')
  {
    PermutedIsPerm(p, p');
    forall k | 0 <= k < |p| ensures Key(b, p'[k]) == Key(b, p[k]) {
      if lo <= k <= hi {
        PermutedMember(p, p', lo, hi, k);
        var j :| lo <= j <= hi && p[j] == p'[k];
        PlacedKey(b, p, j, sb);
        PlacedKey(b, p, k, sb);
      }
    }
    StillPlaced(KeysOf(b), p, p');
  }

  lemma AlikeBucket(b: seq<Byte>, rank: seq<int>, p: seq<int>, sb: int)
    requires Ranked(b, rank) && Placed(KeysOf(b), p)
    ensures Alike(b, p, Begin(b, sb), Begin(b, sb + 1) - 1, 2)
  {
    var lo, hi := Begin(b, sb), Begin(b, sb + 1) - 1;
    CopiedRange(b, rank, p);
    RankedLength(b, rank);
    hide Placed, Ranked, Begin;
    forall a, c | lo <= a <= hi && lo <= c <= hi ensures Same(b, p[a], p[c], 2) {
      PlacedKey(b, p, a, sb);
      PlacedKey(b, p, c, sb);
      KeyOrder(b, rank, p[a], p[c]);
    }
  }

  lemma OthersKept(b: seq<Byte>, rank: seq<int>, p: seq<int>, p': seq<int>, ftab: seq<int>, sb: int, lo: nat, hi: nat)
    requires |ftab| == 65537 && MarkedSorted(b, rank, p, ftab) && 0 <= sb < 65536 && ftab[sb] < SETMASK && |p| == |b|
    requires Permuted(p, p', lo, hi) && lo == Begin(b, sb) && hi == Begin(b, sb + 1) - 1 && InRange(p', |rank|)
    ensures MarkedSorted(b, rank, p', ftab)
  {
    hide Begin, BucketSorted;
    forall s | 0 <= s < 65536 && ftab[s] >= SETMASK ensures BucketSorted(b, rank, p', s) {
      forall i | Begin(b, s) <= i < Begin(b, s + 1) ensures p'[i] == p[i] {
        BeginLimit(b, s + 1);
        BucketsApart(b, s, sb, i);
      }
      BucketKept(b, rank, p, p', s);
    }
  }

  lemma BeginLimit(b: seq<Byte>, sb: int)
    ensures Begin(b, sb) <= |b|
  {
  }

  lemma MarkOne(b: seq<Byte>, rank: seq<int>, p: seq<int>, ftab: seq<int>, sb: nat)
    requires Table(b, ftab) && MarkedSorted(b, rank, p, ftab) && sb < 65536 && BucketSorted(b, rank, p, sb)
    ensures |ftab| == 65537 && MarkedSorted(b, rank, p, ftab[sb := Set(ftab[sb])])
  {
    hide BucketSorted;
  }

  lemma ProgressMarked(b: seq<Byte>, rank: seq<int>, p: seq<int>, ftab: seq<int>, done: seq<bool>, sb: nat)
    requires Progress(b, rank, p, ftab, done) && sb < 65536 && BucketSorted(b, rank, p, sb)
    ensures |ftab| == 65537 && Progress(b, rank, p, ftab[sb := Set(ftab[sb])], done) && Set(ftab[sb]) >= SETMASK
  {
    hide BucketSorted, Placed, Ranked, MarkedSorted;
    SetKeeps(b, ftab, sb);
    MarkOne(b, rank, p, ftab, sb);
    var ftab' := ftab[sb := Set(ftab[sb])];
    forall t | 0 <= t < 256 && done[t] ensures BigMarked(ftab', t) {
      assert BigMarked(ftab, t);
    }
  }

  lemma SortedOne(b: seq<Byte>, rank: seq<int>, p: seq<int>, p': seq<int>, ftab: seq<int>, done: seq<bool>, sb: int,
      lo: nat, hi: nat)
    requires Progress(b, rank, p, ftab, done) && 0 <= sb < 65536 && ftab[sb] < SETMASK && lo == Begin(b, sb)
      && hi == Begin(b, sb + 1) - 1
    requires Permuted(p, p', lo, hi) && InRange(p', |b|) && |rank| == |b| && hi < |p'| && SortedRange(rank, p', lo, hi)
    ensures Progress(b, rank, p', ftab, done) && BucketSorted(b, rank, p', sb)
  {
    hide Placed, Ranked, MarkedSorted, Begin, Table, BigMarked;
    TableAt(b, rank, p, ftab, done, sb);
    PlacedWithin(b, p, p', sb, lo, hi);
    PlacedLength(b, p);
    PlacedLength(b, p');
    OthersKept(b, rank, p, p', ftab, sb, lo, hi);
  }

  lemma ShortSorted(b: seq<Byte>, rank: seq<int>, p: seq<int>, ftab: seq<int>, done: seq<bool>, sb: int)
    requires Progress(b, rank, p, ftab, done) && Begin(b, sb + 1) - 1 <= Begin(b, sb)
    ensures BucketSorted(b, rank, p, sb)
  {
    CopiedRange(b, rank, p);
  }

  /** What the table says about a bucket. */
  lemma TableAt(b: seq<Byte>, rank: seq<int>, p: seq<int>, ftab: seq<int>, done: seq<bool>, sb: int)
    requires Progress(b, rank, p, ftab, done) && 0 <= sb < 65536
    ensures |ftab| == 65537 && |p| == |b| == |rank| && b != [] && Ranked(b, rank) && Clear(ftab[sb]) == Begin(b, sb)
      && Clear(ftab[sb + 1]) == Begin(b, sb + 1) <= |b| < SETMASK
    ensures ftab[sb] >= SETMASK ==> BucketSorted(b, rank, p, sb)
    ensures Placed(KeysOf(b), p)
  {
    PlacedLength(b, p);
  }

  /** Sort one small bucket, unless it is in order already, and mark it. */
  method SortSmall(ptr: array<int>, c: Context, ftab: array<int>, sb: nat, ghost b: seq<Byte>, ghost rank: seq<int>,
      ghost done: seq<bool>, budget0: int) returns (budget: int, abandoned: bool)
    requires ptr != ftab && ptr.Length == |b| && ftab.Length == 65537 && sb < 65536 && c.Fits(b)
      && Progress(b, rank, ptr[..], ftab[..], done)
    modifies ptr, ftab
    ensures abandoned ==> budget < 0
    ensures !abandoned ==>
      Progress(b, rank, ptr[..], ftab[..], done) && ftab[sb] >= SETMASK && (budget0 >= 0 ==> budget >= 0)
    ensures forall s :: 0 <= s < 65537 && s != sb ==> ftab[s] == old(ftab[s])
    ensures Begin(b, sb + 1) - Begin(b, sb) <= 1 ==> !abandoned && budget == budget0 && ptr[..] == old(ptr[..])
    ensures Begin(b, sb + 1) - Begin(b, sb) == 2 && budget0 >= Cost(|b|) ==> !abandoned && budget >= budget0 - Cost(|b|)
  {
    hide Cost, Progress, Context.Fits, Begin, BucketSorted, SortedRange, Permuted, InRange, Ranked, Placed, Alike;
    budget, abandoned := budget0, false;
    ghost var p, f := ptr[..], ftab[..];
    TableAt(b, rank, p, f, done, sb);
    if ftab[sb] < SETMASK {
      var lo, hi := Clear(ftab[sb]), Clear(ftab[sb + 1]) - 1;
      if hi > lo {
        AlikeBucket(b, rank, p, sb);
        budget := MainQSort3.QSort3(ptr, c, b, rank, lo, hi, BZ_N_RADIX, budget);
        if budget < 0 {
          return budget, true;
        }
        SortedOne(b, rank, p, ptr[..], f, done, sb, lo, hi);
      } else {
        ShortSorted(b, rank, p, f, done, sb);
      }
    }
    ProgressMarked(b, rank, ptr[..], f, done, sb);
    ftab[sb] := Set(ftab[sb]);
    assert ftab[..] == f[sb := Set(f[sb])];
  }

  /** What step 1 may take from the budget for a bucket of at most two. */
  function Effort(b: seq<Byte>, ss: Byte): nat {
    if Count(b, ss, |b|) <= 1 then 0 else Cost(|b|)
  }

  /** Nothing is spent yet, or the two entries have been met. */
  ghost predicate Spent(b: seq<Byte>, ss: Byte, j: int, budget0: int, budget: int) {
    budget == budget0 || (budget >= budget0 - Effort(b, ss) && Begin(b, Of(ss, j)) >= Begin(b, 256 * (ss as int)) + 2)
  }

  lemma EffortBegins(b: seq<Byte>, ss: Byte)
    ensures Begin(b, 256 * (ss as int) + 256) - Begin(b, 256 * (ss as int)) == Count(b, ss, |b|)
  {
    BigSize(b, ss);
  }

  /** Small bucket j has at most two entries, and none if two have been met. */
  lemma SpentMore(b: seq<Byte>, ss: Byte, j: int)
    requires 0 <= j < 256
    ensures Of(ss, j + 1) == Of(ss, j) + 1
      && Begin(b, 256 * (ss as int)) <= Begin(b, Of(ss, j)) <= Begin(b, Of(ss, j) + 1) <= Begin(b, 256 * (ss as int)) + Count(b, ss, |b|)
  {
    BigSize(b, ss);
    BeginMonotone(b, 256 * (ss as int), Of(ss, j));
    BeginMonotone(b, Of(ss, j), Of(ss, j) + 1);
    BeginMonotone(b, Of(ss, j) + 1, 256 * (ss as int) + 256);
  }

  /** Step 1: sort all small buckets [ss, j], j other than ss. */
  method SortBig(ptr: array<int>, c: Context, ftab: array<int>, ss: Byte, ghost b: seq<Byte>, ghost rank: seq<int>,
      ghost done: seq<bool>, budget0: int) returns (budget: int, abandoned: bool)
    requires ptr != ftab && ptr.Length == |b| && ftab.Length == 65537 && c.Fits(b)
      && Progress(b, rank, ptr[..], ftab[..], done) && budget0 >= 0
    modifies ptr, ftab
    ensures abandoned ==> budget < 0
    ensures !abandoned ==> Progress(b, rank, ptr[..], ftab[..], done) && budget >= 0
    ensures !abandoned ==> forall j :: 0 <= j < 256 && j != ss ==> ftab[Of(ss, j)] >= SETMASK
    ensures Uniform(b) ==> !abandoned && budget == budget0 && ptr[..] == old(ptr[..])
    ensures Count(b, ss, |b|) <= 2 && budget0 >= Effort(b, ss) ==> !abandoned && budget >= budget0 - Effort(b, ss)
    ensures Count(b, ss, |b|) <= 1 ==> budget == budget0
  {
    hide Progress, Context.Fits, Begin, Uniform, Count, Cost;
    EffortBegins(b, ss);
    budget, abandoned := budget0, false;
    for j := 0 to 256
      invariant Uniform(b) ==> budget == budget0 && ptr[..] == old(ptr[..])
      invariant Count(b, ss, |b|) <= 2 && budget0 >= Effort(b, ss) ==> Spent(b, ss, j, budget0, budget)
      invariant Progress(b, rank, ptr[..], ftab[..], done) && budget >= 0
      invariant forall k :: 0 <= k < j && k != ss ==> ftab[Of(ss, k)] >= SETMASK
    {
      SpentMore(b, ss, j);
      if j != ss {
        if Uniform(b) {
          UniformEmpty(b, Of(ss, j));
        }
        budget, abandoned := SortSmall(ptr, c, ftab, Of(ss, j), b, rank, done, budget);
        if abandoned {
          return;
        }
      }
    }
  }

  // ----- steps 2 and 3 -----------------------------------------------------

  lemma OuterIsSorted(b: seq<Byte>, rank: seq<int>, p: seq<int>, ftab: seq<int>, done: seq<bool>, ss: int)
    requires Progress(b, rank, p, ftab, done) && 0 <= ss < 256
      && forall j :: 0 <= j < 256 && j != ss ==> ftab[Of(ss, j)] >= SETMASK
    ensures OuterSorted(b, rank, p, ss)
  {
    hide BucketSorted, Placed, Ranked;
    forall sb | 256 * ss <= sb < 256 * ss + 256 && sb != 257 * ss ensures BucketSorted(b, rank, p, sb) {
      assert ftab[Of(ss, sb - 256 * ss)] >= SETMASK;
    }
  }

  lemma KeptBySweep(b: seq<Byte>, rank: seq<int>, p0: seq<int>, p: seq<int>, done: seq<bool>, ss: int, sb: int)
    requires Sweeped(b, rank, p0, p, done, ss) && Ranked(b, rank) && Placed(KeysOf(b), p0)
      && BucketSorted(b, rank, p0, sb) && 0 <= sb < 65536
    ensures BucketSorted(b, rank, p, sb)
  {
    if sb % 256 == ss && !done[sb / 256] {
      OfParts(sb);
      assert BucketSorted(b, rank, p, Of(sb / 256, ss));
    } else {
      CopiedRange(b, rank, p);
      hide Placed, Ranked;
      forall i | Begin(b, sb) <= i < Begin(b, sb + 1) ensures p[i] == p0[i] {
        BeginLimit(b, sb + 1);
        PlacedKey(b, p0, i, sb);
      }
      BucketKept(b, rank, p0, p, sb);
    }
  }

  lemma SweepProgress(b: seq<Byte>, rank: seq<int>, p0: seq<int>, p: seq<int>, ftab: seq<int>, done: seq<bool>, ss: int)
    requires Progress(b, rank, p0, ftab, done) && Sweeped(b, rank, p0, p, done, ss)
    ensures Progress(b, rank, p, ftab, done)
  {
    hide BucketSorted, Ranked, Sweeped, BigMarked;
    SweepedPlaced(b, rank, p0, p, done, ss);
    forall sb | 0 <= sb < 65536 && ftab[sb] >= SETMASK ensures BucketSorted(b, rank, p, sb) {
      KeptBySweep(b, rank, p0, p, done, ss, sb);
    }
  }

  lemma SweepedPlaced(b: seq<Byte>, rank: seq<int>, p0: seq<int>, p: seq<int>, done: seq<bool>, ss: int)
    requires Sweeped(b, rank, p0, p, done, ss)
    ensures Placed(KeysOf(b), p)
  {
  }

  /** After the scan every bucket [j, ss] is in order, and gets marked. */
  lemma ColumnSorted(b: seq<Byte>, rank: seq<int>, p0: seq<int>, p: seq<int>, ftab: seq<int>, done: seq<bool>, ss: int,
      j: int)
    requires Progress(b, rank, p, ftab, done) && Sweeped(b, rank, p0, p, done, ss) && 0 <= ss < 256 && 0 <= j < 256
    ensures BucketSorted(b, rank, p, Of(j, ss))
  {
    hide BucketSorted, Placed, Ranked;
    if done[j] {
      assert BigMarked(ftab, j);
      assert ftab[Of(j, ss)] >= SETMASK;
    }
  }

  method MarkColumn(ftab: array<int>, ss: Byte, ghost p: seq<int>, ghost b: seq<Byte>, ghost rank: seq<int>,
      ghost p0: seq<int>, ghost done: seq<bool>)
    requires ftab.Length == 65537 && Progress(b, rank, p, ftab[..], done) && Sweeped(b, rank, p0, p, done, ss)
    modifies ftab
    ensures Progress(b, rank, p, ftab[..], done)
    ensures forall s :: 0 <= s < 65536 && old(ftab[s]) >= SETMASK ==> ftab[s] >= SETMASK
    ensures ftab[257 * ss as int] >= SETMASK
  {
    hide Progress, Sweeped;
    for j := 0 to 256
      invariant Progress(b, rank, p, ftab[..], done)
      invariant forall s :: 0 <= s < 65536 && old(ftab[s]) >= SETMASK ==> ftab[s] >= SETMASK
      invariant j > ss ==> ftab[Of(ss, ss)] >= SETMASK
    {
      ghost var f := ftab[..];
      ColumnSorted(b, rank, p0, p, f, done, ss, j);
      ProgressMarked(b, rank, p, f, done, Of(j, ss));
      ftab[Of(j, ss)] := Set(ftab[Of(j, ss)]);
      assert ftab[..] == f[Of(j, ss) := Set(f[Of(j, ss)])];
    }
  }

  /** The big bucket is done. */
  lemma BigDone(b: seq<Byte>, rank: seq<int>, p: seq<int>, ftab: seq<int>, done: seq<bool>, ss: int)
    requires Progress(b, rank, p, ftab, done) && 0 <= ss < 256
      && (forall j :: 0 <= j < 256 && j != ss ==> ftab[Of(ss, j)] >= SETMASK) && ftab[257 * ss] >= SETMASK
    ensures Progress(b, rank, p, ftab, done[ss := true])
  {
    hide MarkedSorted, Placed, Ranked, Table;
    TableSize(b, ftab);
    forall sb | 256 * ss <= sb < 256 * ss + 256 ensures ftab[sb] >= SETMASK {
      assert sb == Of(ss, sb - 256 * ss);
    }
    assert BigMarked(ftab, ss);
  }

  lemma TableSize(b: seq<Byte>, ftab: seq<int>)
    requires Table(b, ftab)
    ensures |ftab| == 65537
  {
  }

  lemma DonePair(b: seq<Byte>, rank: seq<int>, p: seq<int>, ftab: seq<int>, done: seq<bool>, ss: int, i: nat, j: nat)
    requires Progress(b, rank, p, ftab, done) && 0 <= ss < 256 && done[ss]
      && Begin(b, 256 * ss) <= i < j < Begin(b, 256 * ss + 256)
    ensures |p| == |b| == |rank| && 0 <= p[i] < |b| && 0 <= p[j] < |b| && p[i] != p[j] && rank[p[i]] <= rank[p[j]]
  {
    KeyBetween(b, p, i, 256 * ss, 256 * ss + 256);
    KeyBetween(b, p, j, 256 * ss, 256 * ss + 256);
    PlaceOf(b, p, i);
    PlaceOf(b, p, j);
    PlacedDistinct(b, p, i, j);
    RankedLength(b, rank);
    assert BigMarked(ftab, ss);
    hide Placed, Ranked, Begin, Key, Table;
    var k, m := Key(b, p[i]), Key(b, p[j]);
    if k == m {
      assert ftab[k] >= SETMASK;
      assert BucketSorted(b, rank, p, k);
      assert Ord(rank, p, i, j);
    } else if k < m {
      KeyOrder(b, rank, p[i], p[j]);
    } else {
      BeginMonotone(b, m + 1, k);
    }
  }

  /** So the quadrants can cache its order. */
  lemma DoneBucket(b: seq<Byte>, rank: seq<int>, p: seq<int>, ftab: seq<int>, done: seq<bool>, ss: Byte)
    requires Progress(b, rank, p, ftab, done) && done[ss]
    ensures Begin(b, 256 * (ss as int)) <= Begin(b, 256 * (ss as int) + 256) <= |b| == |p|
    ensures SortedBucket(b, p[Begin(b, 256 * (ss as int))..Begin(b, 256 * (ss as int) + 256)], ss)
  {
    hide Progress, Begin, Placed, Key;
    ProgressIs(b, rank, p, ftab, done);
    var lo, hi := Begin(b, 256 * (ss as int)), Begin(b, 256 * (ss as int) + 256);
    BeginMonotone(b, 256 * (ss as int), 256 * (ss as int) + 256);
    BeginLimit(b, 256 * (ss as int) + 256);
    var bucket := p[lo..hi];
    forall j | 0 <= j < |bucket| ensures 0 <= bucket[j] < |b| && b[bucket[j]] == ss {
      DoneFirst(b, rank, p, ftab, done, ss, lo + j);
    }
    forall j, k | 0 <= j < k < |bucket| ensures bucket[j] != bucket[k] && !RotLess(b, bucket[k], bucket[j]) {
      DonePair(b, rank, p, ftab, done, ss, lo + j, lo + k);
    }
    forall x | 0 <= x < |b| && b[x] == ss ensures x in bucket {
      DoneAll(b, rank, p, ftab, done, ss, x);
    }
  }

  lemma ProgressIs(b: seq<Byte>, rank: seq<int>, p: seq<int>, ftab: seq<int>, done: seq<bool>)
    requires Progress(b, rank, p, ftab, done)
    ensures Ranked(b, rank) && b != [] && |p| == |b| == |rank| && |done| == 256 && Table(b, ftab)
      && Placed(KeysOf(b), p)
  {
    PlacedLength(b, p);
  }

  lemma DoneFirst(b: seq<Byte>, rank: seq<int>, p: seq<int>, ftab: seq<int>, done: seq<bool>, ss: int, i: nat)
    requires Progress(b, rank, p, ftab, done) && 0 <= ss < 256 && Begin(b, 256 * ss) <= i < Begin(b, 256 * ss + 256)
    ensures i < |p| && 0 <= p[i] < |b| && b[p[i]] == ss
  {
    KeyBetween(b, p, i, 256 * ss, 256 * ss + 256);
    assert At(b, p[i]) == b[p[i]];
  }

  lemma DoneAll(b: seq<Byte>, rank: seq<int>, p: seq<int>, ftab: seq<int>, done: seq<bool>, ss: int, x: nat)
    requires Progress(b, rank, p, ftab, done) && 0 <= ss < 256 && x < |b| && b[x] == ss
    ensures Begin(b, 256 * ss) <= Begin(b, 256 * ss + 256) <= |p|
      && x in p[Begin(b, 256 * ss)..Begin(b, 256 * ss + 256)]
  {
    PlacedLength(b, p);
    assert At(b, x) == ss;
    var j := InBucket(b, p, x);
    BeginMonotone(b, 256 * ss, Key(b, x));
    BeginMonotone(b, Key(b, x) + 1, 256 * ss + 256);
    assert p[Begin(b, 256 * ss)..Begin(b, 256 * ss + 256)][j - Begin(b, 256 * ss)] == x;
  }

  // ----- one big bucket ----------------------------------------------------

  /** The block and its quadrants, as comparisons need them; the buckets cached
      so far are those that can spoil the meaning of the quadrants. */
  ghost predicate Cached(block: seq<Byte>, quadrant: seq<int>, b: seq<Byte>, cached: set<int>) {
    && Continued(block, b) && QuadrantsContinued(quadrant, |b|) && NotAgainst(b, quadrant) && BZ_N_OVERSHOOT <= |b|
    && forall c: Byte :: Level(b, quadrant, c) <==> (c in cached ==> Steady(b, c))
  }

  lemma CachedFits(block: seq<Byte>, quadrant: seq<int>, b: seq<Byte>, cached: set<int>)
    requires Cached(block, quadrant, b, cached)
    ensures Context(block, quadrant, |b|).Fits(b) && |b| <= |block| && b == block[..|b|]
      && |quadrant| == |b| + BZ_N_OVERSHOOT
  {
    forall i | 0 <= i < |b| ensures block[i] == b[i] {
      assert block[i] == At(b, i);
    }
  }

  /** At every point the quadrants mean what they are documented to mean exactly
      if all buckets cached so far are steady; so they always do if the block
      differs from its other rotations. */
  lemma CachedDecided(block: seq<Byte>, quadrant: seq<int>, b: seq<Byte>, cached: set<int>)
    requires Cached(block, quadrant, b, cached)
    ensures b != [] && (Decided(b, quadrant) <==> forall c: Byte :: c in cached ==> Steady(b, c))
    ensures Primitive(b) ==> Decided(b, quadrant)
  {
    DecidedIff(b, quadrant);
    if Primitive(b) {
      forall c: Byte ensures Steady(b, c) {
        PrimitiveSteady(b, c);
      }
    }
  }

  /** Nothing is cached while all quadrants are zero. */
  lemma NothingCached(block: seq<Byte>, quadrant: seq<int>, b: seq<Byte>)
    requires Continued(block, b) && QuadrantsContinued(quadrant, |b|) && BZ_N_OVERSHOOT <= |b|
      && forall i :: 0 <= i < |b| ==> quadrant[i] == 0
    ensures Cached(block, quadrant, b, {})
  {
  }

  lemma ClearIs(b: seq<Byte>, ftab: seq<int>, sb: int)
    requires Table(b, ftab) && 0 <= sb <= 65536
    ensures |ftab| == 65537 && Clear(ftab[sb]) == Begin(b, sb)
  {
  }

  /** Step 3: cache the order of a big bucket that is done. */
  method Cache(ptr: array<int>, quadrant: array<int>, ftab: array<int>, ss: Byte, ghost block: seq<Byte>,
      ghost b: seq<Byte>, ghost rank: seq<int>, ghost done: seq<bool>, ghost cached: set<int>)
    requires ptr != quadrant && quadrant != ftab && ptr.Length == |b| && Cached(block, quadrant[..], b, cached)
      && Progress(b, rank, ptr[..], ftab[..], done) && done[ss]
    modifies quadrant
    ensures Cached(block, quadrant[..], b, cached + {ss})
  {
    hide Progress, Begin, SortedBucket, NotAgainst, Continued, Level, Steady, QuadrantsContinued, Decided;
    ProgressIs(b, rank, ptr[..], ftab[..], done);
    CachedFits(block, quadrant[..], b, cached);
    ClearIs(b, ftab[..], 256 * (ss as int));
    ClearIs(b, ftab[..], 256 * (ss as int) + 256);
    DoneBucket(b, rank, ptr[..], ftab[..], done, ss);
    var bbStart := Clear(ftab[256 * (ss as int)]);
    var bbSize := Clear(ftab[256 * (ss as int) + 256]) - bbStart;
    assert ptr[..][bbStart..bbStart + bbSize] == ptr[bbStart..bbStart + bbSize];
    UpdateQuadrants(ptr, quadrant, ptr.Length, bbStart, bbSize, b, ss);
  }

  method BigBucket(ptr: array<int>, block: seq<Byte>, quadrant: array<int>, ftab: array<int>, done0: seq<bool>,
      ss: Byte, last: bool, ghost b: seq<Byte>, ghost rank: seq<int>, ghost cached: set<int>, budget0: int)
    returns (done: seq<bool>, budget: int, abandoned: bool)
    requires ptr != quadrant && ptr != ftab && quadrant != ftab && ptr.Length == |b| && ftab.Length == 65537
      && budget0 >= 0
    requires Cached(block, quadrant[..], b, cached) && Progress(b, rank, ptr[..], ftab[..], done0) && |done0| == 256
      && !done0[ss]
    modifies ptr, quadrant, ftab
    ensures abandoned ==> budget < 0
    ensures !abandoned ==> budget >= 0 && Progress(b, rank, ptr[..], ftab[..], done) && done == done0[ss := true]
    ensures Cached(block, quadrant[..], b, if abandoned || last then cached else cached + {ss})
    ensures Uniform(b) ==> !abandoned && budget == budget0 && ptr[..] == old(ptr[..])
    ensures Count(b, ss, |b|) <= 2 && budget0 >= Effort(b, ss) ==> !abandoned && budget >= budget0 - Effort(b, ss)
    ensures Count(b, ss, |b|) <= 1 ==> budget == budget0
  {
    hide Progress, Cached, Context.Fits, OuterSorted, Sweeped, Ranked, Placed, Table, Uniform, Count, Effort;
    done := done0;
    CachedFits(block, quadrant[..], b, cached);
    budget, abandoned := SortBig(ptr, Context(block, quadrant[..], ptr.Length), ftab, ss, b, rank, done, budget0);
    if abandoned {
      return;
    }
    ghost var p := ptr[..];
    ProgressIs(b, rank, p, ftab[..], done);
    OuterIsSorted(b, rank, p, ftab[..], done, ss);
    Sweep(ptr, block, ftab, done, ss, b, rank);
    SweepProgress(b, rank, p, ptr[..], ftab[..], done, ss);
    MarkColumn(ftab, ss, ptr[..], b, rank, p, done);
    BigDone(b, rank, ptr[..], ftab[..], done, ss);
    done := done[ss := true];
    if !last {
      Cache(ptr, quadrant, ftab, ss, block, b, rank, done, cached);
    }
  }

  /** The bucket at place f of the running order is the first that is not empty,
      and has at most two entries. */
  ghost predicate FirstPair(b: seq<Byte>, running: seq<Byte>, f: nat) {
    f < |running| && (forall k :: 0 <= k < f ==> Count(b, running[k], |b|) == 0) && Count(b, running[f], |b|) <= 2
  }

  /** All big buckets, in the given order. */
  method AllBuckets(ptr: array<int>, block: seq<Byte>, quadrant: array<int>, ftab: array<int>, running: seq<Byte>,
      ghost b: seq<Byte>, ghost rank: seq<int>, budget0: int)
    returns (budget: int, ghost cached: set<int>)
    requires ptr != quadrant && ptr != ftab && quadrant != ftab && ptr.Length == |b| && ftab.Length == 65537
      && budget0 >= 0
    requires Cached(block, quadrant[..], b, {}) && |running| == 256 && IsPerm(running)
    requires Progress(b, rank, ptr[..], ftab[..], seq(256, i => false))
    modifies ptr, quadrant, ftab
    ensures Cached(block, quadrant[..], b, cached)
    ensures budget >= 0 ==> SortedRotations(b, ptr[..]) && forall c: Byte :: c in cached <==> c != running[255]
    ensures Uniform(b) ==> budget == budget0 && ptr[..] == old(ptr[..])
    ensures budget0 >= Cost(|b|) ==> forall f :: 0 <= f < 255 && FirstPair(b, running, f) ==> running[f] in cached
  {
    hide Progress, Cached, SortedRotations, Uniform, Count, Cost;
    var done := seq(256, i => false);
    budget, cached := budget0, {};
    for i := 0 to 256
      invariant |done| == 256 && budget >= 0 && Cached(block, quadrant[..], b, cached)
        && Progress(b, rank, ptr[..], ftab[..], done)
      invariant forall t :: 0 <= t < 256 ==>
        (done[t] <==> t in running[..i]) && (t in cached <==> t in running[..i] && t != running[255])
      invariant Uniform(b) ==> budget == budget0 && ptr[..] == old(ptr[..])
      invariant (forall k :: 0 <= k < i ==> Count(b, running[k], |b|) == 0) ==> budget == budget0
    {
      var abandoned;
      assert running[..i + 1] == running[..i] + [running[i]];
      done, budget, abandoned :=
        BigBucket(ptr, block, quadrant, ftab, done, running[i], i == 255, b, rank, cached, budget);
      if abandoned {
        forall f | budget0 >= Cost(|b|) && 0 <= f < 255 && FirstPair(b, running, f) ensures running[f] in cached {
          assert f < i;
        }
        return;
      }
      if i < 255 {
        cached := cached + {running[i]};
      }
    }
    forall t | 0 <= t < 256 ensures done[t] {
      PermOnto(running, t);
      assert running[..256] == running;
    }
    AllDone(b, rank, ptr[..], ftab[..], done);
  }

  lemma AllDone(b: seq<Byte>, rank: seq<int>, p: seq<int>, ftab: seq<int>, done: seq<bool>)
    requires Progress(b, rank, p, ftab, done) && forall t :: 0 <= t < 256 ==> done[t]
    ensures SortedRotations(b, p)
  {
    hide BucketSorted, Ranked, Placed;
    forall sb | 0 <= sb < 65536 ensures BucketSorted(b, rank, p, sb) {
      assert BigMarked(ftab, sb / 256);
    }
    BucketsSorted(b, rank, p);
  }
}
