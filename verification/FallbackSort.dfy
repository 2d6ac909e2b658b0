/** fallbackSort: the rounds of the exponential radix sort on the arrays. */
module FallbackSort {
  import opened Permutations
  import opened Rotations
  import opened FallbackQSort
  import opened FallbackStack
  import opened FallbackRounds
  import opened Radix
  import opened RadixSort
  import opened WordBytes

  /** Place x moved h places back around a block of n. */
  function Back(n: nat, x: int, h: nat): int {
    if x - h < 0 then x - h + n else x - h
  }

  lemma BackAhead(n: nat, p: nat, h: nat)
    requires 0 < h <= n && p < n
    ensures Back(n, Wrap(n, p + h), h) == p
  {
    if p + h >= n {
      assert Wrap(n, p + h) == Wrap(n, p + h - n);
    }
  }

  ghost predicate Assigned(fmap: seq<int>, bh: seq<bool>, rank: seq<int>, eclass: seq<int>, h: nat, i: int) {
    && |fmap| == |rank| == |eclass| <= |bh| && 0 <= i <= |fmap| && IsPerm(fmap) && 0 < h <= |fmap|
    && (forall k :: 0 <= k < i ==> rank[fmap[k]] == StartOf(bh, k))
    && (forall k :: 0 <= k < i ==> eclass[Back(|fmap|, fmap[k], h)] == StartOf(bh, k))
  }

  lemma AssignedMore(fmap: seq<int>, bh: seq<bool>, rank: seq<int>, eclass: seq<int>, h: nat, i: nat)
    requires Assigned(fmap, bh, rank, eclass, h, i) && i < |fmap|
    ensures Assigned(fmap, bh, rank[fmap[i] := StartOf(bh, i)], eclass[Back(|fmap|, fmap[i], h) := StartOf(bh, i)], h, i + 1)
  {
    hide StartOf;
    var n := |fmap|;
    forall k | 0 <= k < i
      ensures fmap[k] != fmap[i] && Back(n, fmap[k], h) != Back(n, fmap[i], h) && 0 <= Back(n, fmap[i], h) < n
    {
      assert fmap[k] != fmap[i];
    }
  }

  lemma AssignedAll(b: seq<Byte>, fmap: seq<int>, bh: seq<bool>, rank: seq<int>, eclass: seq<int>, h: nat)
    requires Assigned(fmap, bh, rank, eclass, h, |fmap|) && |b| == |fmap| && b != []
    ensures Ranked(fmap, bh, rank) && Ahead(b, rank, eclass, h)
  {
    var n := |fmap|;
    forall p | 0 <= p < n ensures eclass[p] == rank[Wrap(n, p + h)] {
      var i := Where(fmap, Wrap(n, p + h));
      BackAhead(n, p, h);
    }
  }

  /** Give every rotation the class of the rotation h places further on. */
  method AssignClasses(fmap: array<int>, eclass: array<int>, bh: array<bool>, ghost b: seq<Byte>, h: nat)
      returns (ghost rank: seq<int>)
    requires fmap != eclass && fmap.Length == eclass.Length == |b| <= bh.Length && 0 < h <= |b| && IsPerm(fmap[..])
    modifies eclass
    ensures Ranked(fmap[..], bh[..], rank) && Ahead(b, rank, eclass[..], h)
  {
    var n := fmap.Length;
    ghost var f, m := fmap[..], bh[..];
    rank := eclass[..];
    var j := 0;
    assert Assigned(f, m, rank, eclass[..], h, 0);
    hide Assigned, Ranked, Ahead;
    for i := 0 to n
      invariant fmap[..] == f && bh[..] == m
      invariant j == if i == 0 then 0 else StartOf(m, i - 1)
      invariant |rank| == n && Assigned(f, m, rank, eclass[..], h, i)
    {
      AssignedMore(f, m, rank, eclass[..], h, i);
      if bh[i] {
        j := i;
      }
      var k := fmap[i] - h;
      if k < 0 {
        k := k + n;
      }
      ghost var e := eclass[..];
      eclass[k] := j;
      rank := rank[fmap[i] := j];
      assert eclass[..] == e[Back(n, fmap[i], h) := StartOf(m, i)];
    }
    AssignedAll(b, f, m, rank, eclass[..], h);
  }

  // ----- walking the header bits -------------------------------------------

  /** The first place at or after k whose bit is not v: bit by bit up to a word
      boundary, then word by word, then bit by bit again. */
  method Skip(bh: array<bool>, k0: nat, v: bool, ghost stop: nat) returns (k: nat)
    requires k0 <= stop && stop + 32 <= bh.Length && bh[stop] != v
    ensures k0 <= k <= stop && bh[k] != v
    ensures forall i :: k0 <= i < k ==> bh[i] == v
  {
    k := k0;
    while bh[k] == v && k % 32 != 0
      invariant k0 <= k <= stop && forall i :: k0 <= i < k ==> bh[i] == v
      decreases stop - k
    {
      k := k + 1;
    }
    if bh[k] == v {
      while forall i :: k <= i < k + 32 ==> bh[i] == v
        invariant k0 <= k <= stop && forall i :: k0 <= i < k ==> bh[i] == v
        decreases stop - k
      {
        assert !(k <= stop < k + 32);
        k := k + 32;
      }
      while bh[k] == v
        invariant k0 <= k <= stop && forall i :: k0 <= i < k ==> bh[i] == v
        decreases stop - k
      {
        k := k + 1;
      }
    }
  }

  ghost predicate NotNegative(e: seq<int>) {
    forall x :: 0 <= x < |e| ==> e[x] >= 0
  }

  /** Only headers from place q to the end of the block. */
  ghost predicate Single(bh: seq<bool>, q: int, n: int) {
    0 <= q && n <= |bh| && forall i :: q <= i < n ==> bh[i]
  }

  /** Mark the places in l..r where the class changes. */
  method MarkHeaders(fmap: array<int>, e: seq<int>, bh: array<bool>, l: nat, r: nat)
    requires l <= r < fmap.Length <= bh.Length && InRange(fmap[..], |e|)
    requires NotNegative(e)
    modifies bh
    ensures bh[l] && forall i {:trigger bh[i]} :: l < i <= r ==> (bh[i] <==> old(bh[i]) || e[fmap[i - 1]] != e[fmap[i]])
    ensures forall i :: 0 <= i < bh.Length && (i < l || r < i) ==> bh[i] == old(bh[i])
  {
    var cc := -1;
    for i := l to r + 1
      invariant cc == if i == l then -1 else e[fmap[i - 1]]
      invariant i > l ==> bh[l]
      invariant forall k {:trigger bh[k]} :: l < k < i ==> (bh[k] <==> old(bh[k]) || e[fmap[k - 1]] != e[fmap[k]])
      invariant forall k :: 0 <= k < bh.Length && (k < l || i <= k) ==> bh[k] == old(bh[k])
    {
      var cc1 := e[fmap[i]];
      assert cc1 >= 0;
      if cc != cc1 {
        bh[i] := true;
        cc := cc1;
      }
    }
  }

  // ----- one round ---------------------------------------------------------

  /** The buckets at the start of a round: rs[i] is the rank at place i. */
  ghost predicate Buckets(rs: seq<int>, bh: seq<bool>) {
    && rs != [] && |rs| + 33 <= |bh| && bh[0] && bh[|rs|] && !bh[|rs| + 1]
    && forall i, j :: 0 <= i && j == i + 1 < |rs| ==> rs[i] <= rs[j] && (bh[j] <==> rs[i] != rs[j])
  }

  /** Places before q are done, the rest is as at the start of the round. */
  ghost predicate Midway(rank: seq<int>, eclass: seq<int>, rs: seq<int>, bh0: seq<bool>, fmap: seq<int>, bh: seq<bool>,
      q: int) {
    && |rs| == |fmap| && |bh| == |bh0| && Buckets(rs, bh0)
    && Refined(rank, eclass, fmap, bh, q)
    && (forall i :: 0 <= i < |fmap| ==> rank[fmap[i]] == rs[i])
    && (forall i :: q <= i < |bh| ==> bh[i] == bh0[i])
    && bh[0] && bh[q]
  }

  /** l..r is the next bucket with more than one entry: only headers from q to
      l, then no header up to r. */
  ghost predicate NextBucket(bh: seq<bool>, q: int, l: int, r: int) {
    && 0 <= q <= l < r && r + 1 < |bh| && bh[r + 1]
    && (forall i :: q <= i <= l ==> bh[i])
    && (forall i :: l < i <= r ==> !bh[i])
  }

  /** Within a bucket the rank does not change. */
  lemma {:induction false} OneRank(rs: seq<int>, bh: seq<bool>, l: int, r: int, i: int)
    requires Buckets(rs, bh) && 0 <= l <= i <= r < |rs| && forall k :: l < k <= r ==> !bh[k]
    ensures rs[i] == rs[l]
    decreases i
  {
    if i > l {
      OneRank(rs, bh, l, r, i - 1);
    }
  }

  lemma RanksKept(rank: seq<int>, eclass: seq<int>, rs: seq<int>, bh0: seq<bool>, f: seq<int>, bh: seq<bool>, q: int,
      l: int, r: int, f': seq<int>)
    requires Midway(rank, eclass, rs, bh0, f, bh, q) && NextBucket(bh, q, l, r) && r < |f| && Permuted(f, f', l, r)
    ensures IsPerm(f') && forall i :: 0 <= i < |f'| ==> rank[f'[i]] == rs[i]
  {
    PermutedIsPerm(f, f');
    forall i | 0 <= i < |f'| ensures rank[f'[i]] == rs[i] {
      if l <= i <= r {
        PermutedMember(f, f', l, r, i);
        var j :| l <= j <= r && f[j] == f'[i];
        OneRank(rs, bh0, l, r, i);
        OneRank(rs, bh0, l, r, j);
      }
    }
  }

  /** Sorting the next bucket and marking it takes the round past it. */
  lemma BucketDone(rank: seq<int>, eclass: seq<int>, rs: seq<int>, bh0: seq<bool>, f: seq<int>, bh: seq<bool>, q: int,
      l: int, r: int,
                   f': seq<int>, bh': seq<bool>)
    requires Midway(rank, eclass, rs, bh0, f, bh, q) && NextBucket(bh, q, l, r) && r < |f|
    requires Permuted(f, f', l, r) && InRange(f', |eclass|) && SortedRange(eclass, f', l, r)
    requires |bh'| == |bh| && bh'[l]
      && forall i :: l < i <= r ==> (bh'[i] <==> bh[i] || eclass[f'[i - 1]] != eclass[f'[i]])
    requires forall i :: 0 <= i < |bh| && (i < l || r < i) ==> bh'[i] == bh[i]
    ensures Midway(rank, eclass, rs, bh0, f', bh', r + 1)
  {
    RanksKept(rank, eclass, rs, bh0, f, bh, q, l, r, f');
    forall i, j | 0 <= i && j == i + 1 < r + 1
      ensures (rank[f'[i]] < rank[f'[j]] || (rank[f'[i]] == rank[f'[j]] && eclass[f'[i]] <= eclass[f'[j]]))
      ensures (bh'[j] <==> rank[f'[i]] != rank[f'[j]] || eclass[f'[i]] != eclass[f'[j]])
    {
      if j > l {
        OneRank(rs, bh0, l, r, j);
        OneRank(rs, bh0, l, r, i);
        assert Ord(eclass, f', i, j);
      } else if j >= q {
        assert bh0[j] && rs[i] != rs[j];
      } else {
        assert f[i] == f'[i] && f[j] == f'[j];
      }
    }
  }

  /** Only headers left: the round is over. */
  lemma RestSingle(rank: seq<int>, eclass: seq<int>, rs: seq<int>, bh0: seq<bool>, f: seq<int>, bh: seq<bool>, q: int)
    requires Midway(rank, eclass, rs, bh0, f, bh, q) && Single(bh, q, |f|)
    ensures Refined(rank, eclass, f, bh, |f|)
  {
    forall i, j | 0 <= i && j == i + 1 < |f|
      ensures (rank[f[i]] < rank[f[j]] || (rank[f[i]] == rank[f[j]] && eclass[f[i]] <= eclass[f[j]]))
      ensures (bh[j] <==> rank[f[i]] != rank[f[j]] || eclass[f[i]] != eclass[f[j]])
    {
      if j >= q {
        assert bh0[j] && rs[i] != rs[j];
      }
    }
  }

  /** The block end: a header just past the last place, and none after it. */
  ghost predicate Sentinels(bh: seq<bool>, n: nat) {
    n + 33 <= |bh| && bh[n] && !bh[n + 1]
  }

  ghost function PlaceRanks(rank: seq<int>, f: seq<int>): (rs: seq<int>)
    requires IsPerm(f) && |rank| == |f|
    ensures |rs| == |f| && forall i :: 0 <= i < |f| ==> rs[i] == rank[f[i]]
  {
    seq(|f|, i requires 0 <= i < |f| => rank[f[i]])
  }

  lemma RoundStarts(rank: seq<int>, eclass: seq<int>, f: seq<int>, bh: seq<bool>)
    requires Ranked(f, bh, rank) && |eclass| == |f| && f != [] && bh[0] && Sentinels(bh, |f|)
    ensures Midway(rank, eclass, PlaceRanks(rank, f), bh, f, bh, 0)
  {
    var rs := PlaceRanks(rank, f);
    forall i, j | 0 <= i && j == i + 1 < |f| ensures rs[i] <= rs[j] && (bh[j] <==> rs[i] != rs[j]) {
      StartMonotone(bh, i, j);
    }
  }

  lemma MidwayBounds(rank: seq<int>, eclass: seq<int>, rs: seq<int>, bh0: seq<bool>, f: seq<int>, bh: seq<bool>, q: int)
    requires Midway(rank, eclass, rs, bh0, f, bh, q)
    ensures 0 <= q <= |f| && Sentinels(bh, |f|) && bh[q] && bh[0] && InRange(f, |eclass|)
  {
  }

  lemma RoundEnds(rank: seq<int>, eclass: seq<int>, rs: seq<int>, bh0: seq<bool>, f: seq<int>, bh: seq<bool>, q: int)
    requires Midway(rank, eclass, rs, bh0, f, bh, q) && Single(bh, q, |f|)
    ensures Midway(rank, eclass, rs, bh0, f, bh, |f|)
  {
    RestSingle(rank, eclass, rs, bh0, f, bh, q);
  }

  method SortBucket(fmap: array<int>, e: seq<int>, bh: array<bool>, l: nat, r: nat)
    requires l < r < fmap.Length <= bh.Length && InRange(fmap[..], |e|) && fmap.Length <= INT_RANGE
    requires NotNegative(e)
    modifies fmap, bh
    ensures Permuted(old(fmap[..]), fmap[..], l, r) && InRange(fmap[..], |e|) && SortedRange(e, fmap[..], l, r)
    ensures bh[l] && forall i {:trigger bh[i]} :: l < i <= r ==> (bh[i] <==> old(bh[i]) || e[fmap[i - 1]] != e[fmap[i]])
    ensures forall i :: 0 <= i < bh.Length && (i < l || r < i) ==> bh[i] == old(bh[i])
    ensures Flat(e) ==> fmap[..] == old(fmap[..])
  {
    QSort3(fmap, e, l, r);
    hide Permuted, SortedRange, Flat;
    MarkHeaders(fmap, e, bh, l, r);
  }

  /** Find the next bucket from place q on; `found` is false at the block end. */
  method FindBucket(bh: array<bool>, n: nat, q: nat) returns (l: nat, r: nat, found: bool)
    requires q <= n && Sentinels(bh[..], n) && bh[q]
    ensures found ==> NextBucket(bh[..], q, l, r) && r < n
    ensures !found ==> Single(bh[..], q, n)
  {
    l, r, found := 0, 0, false;
    var k := Skip(bh, q, true, n + 1);
    if k - 1 < n {
      l := k - 1;
      k := Skip(bh, k, false, n);
      r := k - 1;
      found := true;
    }
  }

  /** Sort the next bucket, if there is one. */
  method NextStep(fmap: array<int>, e: seq<int>, bh: array<bool>, q: nat, ghost rank: seq<int>, ghost rs: seq<int>,
      ghost bh0: seq<bool>)
    returns (r: nat, size: nat, found: bool)
    requires fmap.Length == |e| && fmap.Length <= INT_RANGE && NotNegative(e)
    requires Midway(rank, e, rs, bh0, fmap[..], bh[..], q)
    modifies fmap, bh
    ensures found ==> q <= r < fmap.Length && size > 0 && Midway(rank, e, rs, bh0, fmap[..], bh[..], r + 1)
    ensures !found ==> fmap[..] == old(fmap[..]) && bh[..] == old(bh[..]) && Single(bh[..], q, fmap.Length)
    ensures Flat(e) ==> fmap[..] == old(fmap[..])
  {
    ghost var f, h := fmap[..], bh[..];
    MidwayBounds(rank, e, rs, bh0, f, h, q);
    hide Midway, Permuted, SortedRange, Flat;
    var l;
    l, r, found := FindBucket(bh, fmap.Length, q);
    size := 0;
    if found {
      size := r - l + 1;
      SortBucket(fmap, e, bh, l, r);
      BucketDone(rank, e, rs, bh0, f, h, q, l, r, fmap[..], bh[..]);
    }
  }

  /** One round: sort every bucket of more than one rotation by the classes h
      places further on. */
  method Round(fmap: array<int>, e: seq<int>, bh: array<bool>, ghost rank: seq<int>, ghost rs: seq<int>,
      ghost bh0: seq<bool>)
    returns (notDone: nat)
    requires fmap.Length == |e| && fmap.Length <= INT_RANGE && NotNegative(e)
    requires Midway(rank, e, rs, bh0, fmap[..], bh[..], 0)
    modifies fmap, bh
    ensures Midway(rank, e, rs, bh0, fmap[..], bh[..], fmap.Length)
    ensures notDone == 0 ==> Single(bh[..], 0, fmap.Length)
    ensures Flat(e) ==> fmap[..] == old(fmap[..])
  {
    hide Midway, Single, NotNegative, Permuted, SortedRange, Flat;
    var n := fmap.Length;
    notDone := 0;
    var q := 0;
    while true
      invariant 0 <= q <= n
      invariant Midway(rank, e, rs, bh0, fmap[..], bh[..], q) && (Flat(e) ==> fmap[..] == old(fmap[..]))
      invariant notDone == 0 ==> q == 0
      decreases n - q
    {
      var r, size, found := NextStep(fmap, e, bh, q, rank, rs, bh0);
      if !found {
        break;
      }
      notDone := notDone + size;
      q := r + 1;
    }
    RoundEnds(rank, e, rs, bh0, fmap[..], bh[..], q);
  }

  // ----- the whole sort ----------------------------------------------------

  /** Between rounds: sorted by the first h bytes, every place still within the
      bucket of its first byte, the block end marked. */
  ghost predicate Sorting(b: seq<Byte>, fmap: seq<int>, bh: seq<bool>, h: nat) {
    Bucketed(b, fmap, bh, h) && Placed(b, fmap) && Sentinels(bh, |b|)
  }

  lemma FirstBuckets(b: seq<Byte>, f: seq<int>, bh: seq<bool>)
    requires Placed(b, f) && b != [] && Sentinels(bh, |b|)
      && forall k :: 0 <= k < |b| ==> (bh[k] <==> StartsBucket(b, k))
    ensures Sorting(b, f, bh, 1)
  {
    assert StartsBucket(b, 0) by {
      SmallerEnds(b, |b|);
    }
    forall i, j | 0 <= i && j == i + 1 < |b| ensures !Less(b, f[j], f[i], 1) && (bh[j] <==> !Same(b, f[i], f[j], 1)) {
      BucketStarts(b, f, i, j);
      OneByte(b, f[i], f[j]);
      OneByte(b, f[j], f[i]);
    }
  }

  lemma OneByte(b: seq<Byte>, p: nat, q: nat)
    requires p < |b| && q < |b|
    ensures Same(b, p, q, 1) <==> b[p] == b[q]
    ensures Less(b, p, q, 1) <==> b[p] < b[q]
  {
    assert At(b, p) == b[p] && At(b, q) == b[q];
    assert Same(b, p + 1, q + 1, 0) && !Less(b, p + 1, q + 1, 0);
  }

  lemma ClassesNotNegative(b: seq<Byte>, fmap: seq<int>, bh: seq<bool>, rank: seq<int>, e: seq<int>, h: nat)
    requires Ranked(fmap, bh, rank) && Ahead(b, rank, e, h)
    ensures NotNegative(e)
  {
    forall x | 0 <= x < |e| ensures e[x] >= 0 {
      var i := Where(fmap, Wrap(|b|, x + h));
    }
  }

  lemma SameRankSameByte(b: seq<Byte>, rank: seq<int>, f: seq<int>, f': seq<int>, h: nat)
    requires Represents(b, rank, h) && h > 0 && |f| == |f'| == |b| && IsPerm(f) && IsPerm(f')
    requires forall k :: 0 <= k < |f| ==> rank[f'[k]] == rank[f[k]]
    ensures forall k :: 0 <= k < |f| ==> b[f'[k]] == b[f[k]]
  {
    forall k | 0 <= k < |f| ensures b[f'[k]] == b[f[k]] {
      assert Same(b, f'[k], f[k], h);
      SameAt(b, f'[k], f[k], h, 0);
    }
  }

  /** A finished round leaves the invariant for twice as many bytes. */
  lemma RoundKeeps(b: seq<Byte>, f: seq<int>, bh: seq<bool>, rank: seq<int>, e: seq<int>, h: nat, f': seq<int>,
      bh': seq<bool>)
    requires Sorting(b, f, bh, h) && h > 0 && Ranked(f, bh, rank) && Ahead(b, rank, e, h)
    requires Midway(rank, e, PlaceRanks(rank, f), bh, f', bh', |f'|)
    ensures Sorting(b, f', bh', 2 * h)
  {
    RanksRepresent(b, f, bh, rank, h);
    MidwayBounds(rank, e, PlaceRanks(rank, f), bh, f', bh', |f'|);
    assert |f'| == |f| == |b|;
    RoundDoubles(b, rank, e, f', bh', h);
    SameRankSameByte(b, rank, f, f', h);
    StillPlaced(b, f, f');
  }

  /** One repeated byte: all classes are the same. */
  lemma UniformFlat(b: seq<Byte>, f: seq<int>, bh: seq<bool>, rank: seq<int>, e: seq<int>, h: nat)
    requires Sorting(b, f, bh, h) && Ranked(f, bh, rank) && Ahead(b, rank, e, h)
    ensures Uniform(b) ==> Flat(e)
  {
    if Uniform(b) {
      RanksRepresent(b, f, bh, rank, h);
      hide Sorting, Ranked;
      forall x | 0 <= x < |e| ensures e[x] == e[0] {
        AllSame(b, b[0], Wrap(|b|, x + h), Wrap(|b|, h), h);
      }
    }
  }

  /** One pass of the log(N) loop. */
  method Pass(fmap: array<int>, eclass: array<int>, bh: array<bool>, ghost b: seq<Byte>, h: nat) returns (notDone: nat)
    requires fmap != eclass && fmap.Length == eclass.Length == |b| <= INT_RANGE && 0 < h <= |b|
      && Sorting(b, fmap[..], bh[..], h)
    modifies fmap, eclass, bh
    ensures Sorting(b, fmap[..], bh[..], 2 * h)
    ensures notDone == 0 ==> Single(bh[..], 0, fmap.Length)
    ensures Uniform(b) ==> fmap[..] == old(fmap[..])
  {
    ghost var f, m := fmap[..], bh[..];
    assert m[0] && Sentinels(m, |f|) && IsPerm(f) && |f| <= |m|;
    hide Sorting, Midway, Ranked, Ahead, Single, Uniform, Flat;
    ghost var rank := AssignClasses(fmap, eclass, bh, b, h);
    ghost var e := eclass[..];
    ClassesNotNegative(b, f, m, rank, e, h);
    UniformFlat(b, f, m, rank, e, h);
    RankedLength(f, m, rank);
    RoundStarts(rank, e, f, m);
    notDone := Round(fmap, eclass[..], bh, rank, PlaceRanks(rank, f), m);
    RoundKeeps(b, f, m, rank, e, h, fmap[..], bh[..]);
  }

  lemma RankedLength(f: seq<int>, bh: seq<bool>, rank: seq<int>)
    requires Ranked(f, bh, rank)
    ensures |rank| == |f|
  {
  }

  /** The first bucket sort and its header bits. */
  method FirstPass(fmap: array<int>, eclass: array<int>, bh: array<bool>, ftabCopy: array<int>, ghost b: seq<Byte>)
    requires fmap != eclass && fmap != ftabCopy && eclass != ftabCopy && ftabCopy.Length == 256
    requires fmap.Length == eclass.Length == |b| > 0 && Holds(eclass[..], b) && bh.Length >= 32 * (3 + |b| / 32)
    modifies fmap, bh, ftabCopy
    ensures Sorting(b, fmap[..], bh[..], 1) && Dropped(b, fmap[..], |b|)
    ensures forall c :: 0 <= c < 256 ==> ftabCopy[c] == Count(b, c, |b|)
  {
    var n := fmap.Length;
    var ftab := new int[257];
    CountBytes(eclass, ftab, b, n);
    CopyCounts(ftab, ftabCopy);
    assert forall c :: 0 <= c < 256 ==> ftabCopy[..][c] == ftab[..256][c];
    SumCounts(ftab, b);
    Distribute(fmap, eclass, ftab, b);
    ghost var f := fmap[..];
    MarkBuckets(bh, ftab, b, n);
    assert fmap[..] == f;
    FirstBuckets(b, f, bh[..]);
  }

  /** fallbackSort: leaves fmap listing all rotations of the block in order, and
      the block back in the bytes of eclass it started in. One repeated byte is
      left in reverse. */
  method Sort(fmap: array<int>, eclass: array<int>, bh: array<bool>, ghost b: seq<Byte>)
    requires fmap != eclass && 0 < fmap.Length == eclass.Length == |b| <= INT_RANGE
    requires Holds(eclass[..], b) && bh.Length >= 32 * (3 + |b| / 32)
    modifies fmap, eclass, bh
    ensures SortedRotations(b, fmap[..])
    ensures Holds(eclass[..], b)
    ensures Uniform(b) ==> forall i :: 0 <= i < |b| ==> fmap[i] == |b| - 1 - i
  {
    var n := fmap.Length;
    var ftabCopy := new int[256];
    FirstPass(fmap, eclass, bh, ftabCopy, b);
    ghost var first := fmap[..];
    hide Sorting, Single, SortedRotations, Uniform, Dropped;
    var h, notDone := 1, 1;
    while h <= n && notDone != 0
      invariant 0 < h && Sorting(b, fmap[..], bh[..], h) && (Uniform(b) ==> fmap[..] == first)
      invariant notDone == 0 ==> Single(bh[..], 0, n)
      invariant forall c :: 0 <= c < 256 ==> ftabCopy[c] == Count(b, c, n)
      decreases n + 1 - h
    {
      notDone := Pass(fmap, eclass, bh, b, h);
      h := 2 * h;
    }
    SortedAtLast(b, fmap[..], bh[..], h, notDone == 0);
    DroppedReverse(b, first);
    Rebuild(fmap, eclass, ftabCopy, b);
  }

  /** Dropped from the end of the bucket down, equal bytes come in reverse. */
  lemma DroppedReverse(b: seq<Byte>, f: seq<int>)
    requires Dropped(b, f, |b|)
    ensures Uniform(b) ==> forall i :: 0 <= i < |b| ==> f[i] == |b| - 1 - i
  {
    if Uniform(b) {
      forall i | 0 <= i < |b| ensures f[i] == |b| - 1 - i {
        var k := |b| - 1 - i;
        SmallerBound(b, (b[0] as int) + 1, |b|);
        CountEqual(b, b[0], k);
        assert Pos(b, k) == i;
      }
    }
  }

  lemma SortedAtLast(b: seq<Byte>, f: seq<int>, bh: seq<bool>, h: nat, single: bool)
    requires Sorting(b, f, bh, h) && (h > |b| || single) && (single ==> Single(bh, 0, |b|))
    ensures SortedRotations(b, f) && Placed(b, f)
  {
    RoundsSuffice(b, f, bh, h);
  }
}
