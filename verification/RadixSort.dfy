/** The counting loops of fallbackSort on the arrays themselves. */
module RadixSort {
  import opened Permutations
  import opened Rotations
  import opened Radix
  import opened WordBytes

  /** Count every byte. */
  method CountBytes(eclass: array<int>, ftab: array<int>, ghost b: seq<Byte>, n: nat)
    requires n == |b| && Holds(eclass[..], b) && ftab.Length == 257 && eclass != ftab
    modifies ftab
    ensures forall c :: 0 <= c < 257 ==> ftab[c] == Count(b, c, n)
  {
    ghost var words := eclass[..];
    for i := 0 to 257
      invariant eclass[..] == words
      invariant forall c :: 0 <= c < i ==> ftab[c] == 0
    {
      ftab[i] := 0;
    }
    for i := 0 to n
      invariant eclass[..] == words
      invariant forall c :: 0 <= c < 257 ==> ftab[c] == Count(b, c, i)
    {
      var c := GetByte(eclass[..], i);
      assert c == b[i];
      ftab[c] := ftab[c] + 1;
    }
  }

  method CopyCounts(ftab: array<int>, ftabCopy: array<int>)
    requires ftab.Length == 257 && ftabCopy.Length == 256 && ftab != ftabCopy
    modifies ftabCopy
    ensures ftabCopy[..] == ftab[..256]
  {
    for i := 0 to 256
      invariant ftabCopy[..i] == ftab[..i]
    {
      ftabCopy[i] := ftab[i];
    }
  }

  /** Turn counts into bucket ends. */
  method SumCounts(ftab: array<int>, ghost ks: seq<int>)
    requires ftab.Length > 0 && (forall k :: 0 <= k < |ks| ==> ks[k] >= 0)
      && forall c :: 0 <= c < ftab.Length ==> ftab[c] == Count(ks, c, |ks|)
    modifies ftab
    ensures forall c :: 0 <= c < ftab.Length ==> ftab[c] == UpTo(ks, c, |ks|)
  {
    SmallerBound(ks, 0, |ks|);
    SmallerNext(ks, 0, |ks|);
    for i := 1 to ftab.Length
      invariant forall c :: 0 <= c < i ==> ftab[c] == UpTo(ks, c, |ks|)
      invariant forall c :: i <= c < ftab.Length ==> ftab[c] == Count(ks, c, |ks|)
    {
      SmallerNext(ks, i, |ks|);
      ftab[i] := ftab[i] + ftab[i - 1];
    }
  }

  /** Drop every position into its bucket, from the end of the bucket down. */
  method Distribute(fmap: array<int>, eclass: array<int>, ftab: array<int>, ghost b: seq<Byte>)
    requires fmap.Length == |b| && Holds(eclass[..], b) && ftab.Length == 257
    requires fmap != ftab && fmap != eclass && eclass != ftab
    requires forall c :: 0 <= c < 257 ==> ftab[c] == UpTo(b, c, |b|)
    modifies fmap, ftab
    ensures Placed(b, fmap[..]) && Dropped(b, fmap[..], |b|)
    ensures forall c :: 0 <= c < 256 ==> ftab[c] == Smaller(b, c, |b|)
  {
    hide Holds, Taken, Dropped;
    var n := fmap.Length;
    ghost var words := eclass[..];
    NothingTaken(b, ftab[..], fmap[..]);
    for i := 0 to n
      invariant eclass[..] == words && Taken(b, ftab[..], i) && Dropped(b, fmap[..], i)
    {
      ghost var tab, places := ftab[..], fmap[..];
      HoldsAt(words, b, i);
      var j := GetByte(eclass[..], i);
      TakeOne(b, tab, places, i);
      var k := ftab[j] - 1;
      ftab[j] := k;
      fmap[k] := i;
      assert ftab[..] == tab[j := k] && fmap[..] == places[k := i];
    }
    AllDropped(b, ftab[..], fmap[..]);
  }

  /** Each bucket's end has moved down by what the first i bytes put there. */
  ghost predicate Taken(b: seq<Byte>, ftab: seq<int>, i: nat) {
    i <= |b| && |ftab| == 257 && forall c :: 0 <= c < 257 ==> ftab[c] == UpTo(b, c, |b|) - Count(b, c, i)
  }

  /** The first i positions are in their places. */
  ghost predicate Dropped(b: seq<Byte>, fmap: seq<int>, i: nat) {
    i <= |b| == |fmap| && forall k :: 0 <= k < i ==> 0 <= Pos(b, k) < |b| && fmap[Pos(b, k)] == k
  }

  lemma NothingTaken(b: seq<Byte>, ftab: seq<int>, fmap: seq<int>)
    requires |ftab| == 257 && |fmap| == |b| && forall c :: 0 <= c < 257 ==> ftab[c] == UpTo(b, c, |b|)
    ensures Taken(b, ftab, 0) && Dropped(b, fmap, 0)
  {
  }

  lemma HoldsAt(words: seq<int>, b: seq<Byte>, i: nat)
    requires Holds(words, b) && i < |b|
    ensures i < 4 * |words| && GetByte(words, i) == b[i]
  {
  }

  lemma TakeOne(b: seq<Byte>, ftab: seq<int>, fmap: seq<int>, i: nat)
    requires Taken(b, ftab, i) && Dropped(b, fmap, i) && i < |b|
    ensures |ftab| == 257 && ftab[b[i]] - 1 == Pos(b, i) && 0 <= Pos(b, i) < |fmap|
    ensures Taken(b, ftab[b[i] := Pos(b, i)], i + 1) && Dropped(b, fmap[Pos(b, i) := i], i + 1)
  {
    PosInBucket(b, i);
    forall m | 0 <= m < i ensures Pos(b, m) != Pos(b, i) {
      PosInjective(b, m, i);
    }
  }

  lemma AllDropped(b: seq<Byte>, ftab: seq<int>, fmap: seq<int>)
    requires Taken(b, ftab, |b|) && Dropped(b, fmap, |b|)
    ensures Placed(b, fmap) && |ftab| == 257 && forall c :: 0 <= c < 256 ==> ftab[c] == Smaller(b, c, |b|)
  {
    FilledIsPlaced(b, fmap);
    forall c | 0 <= c < 256 ensures ftab[c] == Smaller(b, c, |b|) {
      SmallerNext(b, c, |b|);
    }
  }

  // ----- the first header bits ---------------------------------------------

  /** Place k starts a bucket. */
  ghost predicate StartsBucket(b: seq<Byte>, k: int) {
    exists c :: 0 <= c < 256 && Smaller(b, c, |b|) == k
  }

  /** In the sorted order a bucket starts exactly where the first byte changes. */
  lemma BucketStarts(b: seq<Byte>, f: seq<int>, i: nat, j: nat)
    requires Placed(b, f) && j == i + 1 < |b|
    ensures b[f[i]] <= b[f[j]]
    ensures StartsBucket(b, j) <==> b[f[i]] != b[f[j]]
  {
    var n, c, d := |b|, b[f[i]], b[f[j]];
    if d < c {
      UpToMonotone(b, d, c, n);
    } else if c < d {
      UpToMonotone(b, c, d, n);
      assert Smaller(b, d, n) == j;
    } else {
      forall x | 0 <= x < 256 ensures Smaller(b, x, n) != j {
        if x <= c {
          SmallerMonotone(b, x, c, n);
        } else {
          UpToMonotone(b, c, x, n);
        }
      }
    }
  }

  /** Clear the table, mark the bucket starts, and set the sentinel bits. */
  method MarkBuckets(bh: array<bool>, ftab: array<int>, ghost b: seq<Byte>, n: nat)
    requires n == |b| > 0 && bh.Length >= 32 * (3 + n / 32) && ftab.Length == 257
    requires forall c :: 0 <= c < 256 ==> ftab[c] == Smaller(b, c, n)
    modifies bh
    ensures forall k :: 0 <= k < n ==> (bh[k] <==> StartsBucket(b, k))
    ensures bh[n] && !bh[n + 1]
  {
    var words := 2 + n / 32;
    for i := 0 to 32 * words
      invariant forall k :: 0 <= k < i ==> !bh[k]
    {
      bh[i] := false;
    }
    for i := 0 to 256
      invariant forall k :: 0 <= k < n ==> (bh[k] <==> exists c :: 0 <= c < i && Smaller(b, c, n) == k)
    {
      SmallerMonotone(b, i, 256, n);
      SmallerEnds(b, n);
      bh[ftab[i]] := true;
    }
    for i := 0 to 32
      invariant forall k :: 0 <= k < n ==> (bh[k] <==> StartsBucket(b, k))
      invariant i > 0 ==> bh[n] && !bh[n + 1]
    {
      bh[n + 2 * i] := true;
      bh[n + 2 * i + 1] := false;
    }
  }

  // ----- rebuilding the block ----------------------------------------------

  /** Occurrences of c still to come when i places have been read off. */
  function Left(b: seq<Byte>, c: int, i: nat): int {
    if i <= Smaller(b, c, |b|) then UpTo(b, c, |b|) - Smaller(b, c, |b|)
    else if i >= UpTo(b, c, |b|) then 0
    else UpTo(b, c, |b|) - i
  }

  lemma LeftStep(b: seq<Byte>, c: int, i: nat, d: int)
    requires Smaller(b, d, |b|) <= i < UpTo(b, d, |b|)
    ensures Left(b, c, i + 1) == Left(b, c, i) - if c == d then 1 else 0
    ensures c == d ==> Left(b, c, i) > 0
    ensures c < d ==> Left(b, c, i) == 0
  {
    SmallerMonotone(b, c, c + 1, |b|);
    if c < d {
      UpToMonotone(b, c, d, |b|);
    } else if d < c {
      UpToMonotone(b, d, c, |b|);
    }
  }

  /** Put the block back into the bytes of eclass, reading first bytes off the
      sorted order. */
  method Rebuild(fmap: array<int>, eclass: array<int>, ftabCopy: array<int>, ghost b: seq<Byte>)
    requires fmap.Length == |b| <= 4 * eclass.Length && ftabCopy.Length == 256
    requires fmap != eclass && fmap != ftabCopy && eclass != ftabCopy
    requires Placed(b, fmap[..]) && forall c :: 0 <= c < 256 ==> ftabCopy[c] == Count(b, c, |b|)
    modifies eclass, ftabCopy
    ensures Holds(eclass[..], b)
  {
    var n := fmap.Length;
    ghost var f := fmap[..];
    var j := 0;
    forall c | 0 <= c < 256 ensures ftabCopy[c] == Left(b, c, 0) {
      SmallerNext(b, c, n);
    }
    for i := 0 to n
      invariant fmap[..] == f
      invariant 0 <= j < 256 && (i < n ==> j <= b[f[i]])
      invariant forall c :: 0 <= c < 256 ==> ftabCopy[c] == Left(b, c, i)
      invariant forall k :: 0 <= k < i ==> GetByte(eclass[..], f[k]) == b[f[k]]
    {
      ghost var d := b[f[i]];
      forall c | 0 <= c < 256
        ensures Left(b, c, i + 1) == Left(b, c, i) - (if c == d then 1 else 0)
        ensures (c == d ==> Left(b, c, i) > 0) && (c < d ==> Left(b, c, i) == 0)
      {
        LeftStep(b, c, i, d);
      }
      while ftabCopy[j] == 0
        invariant 0 <= j <= d
        decreases d - j
      {
        j := j + 1;
      }
      assert j == d;
      ftabCopy[j] := ftabCopy[j] - 1;
      ghost var before := eclass[..];
      var words := PutByte(eclass[..], fmap[i], j);
      eclass[fmap[i] / 4] := words[fmap[i] / 4];
      assert eclass[..] == PutByte(before, f[i], j);
      forall k | 0 <= k <= i ensures GetByte(eclass[..], f[k]) == b[f[k]] {
        PutGet(before, f[i], j, f[k]);
      }
      if i + 1 < n {
        BucketStarts(b, f, i, i + 1);
      }
    }
    forall p | 0 <= p < n ensures GetByte(eclass[..], p) == b[p] {
      var k := Where(f, p);
    }
  }
}
