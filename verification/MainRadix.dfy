/** How the main sort begins: a radix sort by the first two bytes, and the order
    in which big buckets will be taken. */
module MainRadix {
  import opened Sizes
  import opened Rotations
  import opened Radix
  import opened Bwt
  import opened BwtVectors
  import opened MainCompare
  import opened MainBuckets

  /** j = (j >> 8) | (block[i] << 8): the key of position i from the one after. */
  lemma KeyStep(b: seq<Byte>, i: nat, j: int)
    requires i < |b| && j / 256 == At(b, i + 1)
    ensures j / 256 + 256 * (b[i] as int) == Key(b, i) && Key(b, i) / 256 == At(b, i)
  {
    assert At(b, i) == b[i];
  }

  lemma KeyStart(b: seq<Byte>)
    requires b != []
    ensures 256 * (b[0] as int) / 256 == At(b, |b|)
  {
    assert Wrap(|b|, |b|) == 0;
  }

  /** Entries of the table count the positions from i on. */
  ghost predicate CountedFrom(ks: seq<int>, ftab: seq<int>, i: nat) {
    i <= |ks| && |ftab| == 65537 && forall c :: 0 <= c < 65537 ==> ftab[c] == Count(ks, c, |ks|) - Count(ks, c, i)
  }

  lemma CountOne(ks: seq<int>, ftab: seq<int>, i: nat)
    requires CountedFrom(ks, ftab, i + 1) && i < |ks| && 0 <= ks[i] < 65536
    ensures CountedFrom(ks, ftab[ks[i] := ftab[ks[i]] + 1], i)
  {
  }

  lemma CountNone(ks: seq<int>, ftab: seq<int>)
    requires |ftab| == 65537 && forall c :: 0 <= c < 65537 ==> ftab[c] == 0
    ensures CountedFrom(ks, ftab, |ks|)
  {
  }

  lemma CountAll(ks: seq<int>, ftab: seq<int>)
    requires CountedFrom(ks, ftab, 0)
    ensures forall c :: 0 <= c < 65537 ==> ftab[c] == Count(ks, c, |ks|)
  {
  }

  /** Count every pair of bytes, and clear the quadrants. */
  method CountPairs(block: array<Byte>, quadrant: array<int>, ftab: array<int>, n: nat, ghost b: seq<Byte>)
    requires n == |b| && quadrant != ftab && b != [] && |b| <= block.Length && |b| <= quadrant.Length
      && ftab.Length == 65537 && block[..|b|] == b
    modifies quadrant, ftab
    ensures forall c :: 0 <= c < 65537 ==> ftab[c] == Count(KeysOf(b), c, |b|)
    ensures forall i :: 0 <= i < |b| ==> quadrant[i] == 0
  {
    hide Key, CountedFrom;
    for c := 0 to 65537
      invariant forall d :: 0 <= d < c ==> ftab[d] == 0
    {
      ftab[c] := 0;
    }
    CountNone(KeysOf(b), ftab[..]);
    KeyStart(b);
    var j, i := 256 * (block[0] as int), n;
    while i > 0
      invariant 0 <= i <= |b| && j / 256 == At(b, i) && CountedFrom(KeysOf(b), ftab[..], i) && block[..|b|] == b
      invariant forall k :: i <= k < |b| ==> quadrant[k] == 0
    {
      i := i - 1;
      ghost var f := ftab[..];
      quadrant[i] := 0;
      assert block[i] == b[i];
      KeyStep(b, i, j);
      CountOne(KeysOf(b), f, i);
      j := j / 256 + 256 * (block[i] as int);
      ftab[j] := ftab[j] + 1;
      assert ftab[..] == f[j := f[j] + 1];
    }
    CountAll(KeysOf(b), ftab[..]);
  }

  // ----- distribution ------------------------------------------------------

  /** Bucket ends moved down past the positions from i on. */
  ghost predicate MovedFrom(ks: seq<int>, ftab: seq<int>, i: nat) {
    i <= |ks| && |ftab| == 65537 && forall c :: 0 <= c < 65537 ==> ftab[c] == Smaller(ks, c, |ks|) + Count(ks, c, i)
  }

  /** Positions from i on are in their places. */
  ghost predicate DroppedFrom(ks: seq<int>, p: seq<int>, i: nat) {
    i <= |ks| == |p| && forall k :: i <= k < |ks| ==> 0 <= Stable(ks, k) < |ks| && p[Stable(ks, k)] == k
  }

  lemma MoveBegins(ks: seq<int>, ftab: seq<int>, p: seq<int>)
    requires |ftab| == 65537 && |p| == |ks| && forall c :: 0 <= c < 65537 ==> ftab[c] == UpTo(ks, c, |ks|)
    ensures MovedFrom(ks, ftab, |ks|) && DroppedFrom(ks, p, |ks|)
  {
    forall c | 0 <= c < 65537 ensures ftab[c] == Smaller(ks, c, |ks|) + Count(ks, c, |ks|) {
      SmallerNext(ks, c, |ks|);
    }
  }

  lemma MoveOne(ks: seq<int>, ftab: seq<int>, p: seq<int>, i: nat)
    requires MovedFrom(ks, ftab, i + 1) && DroppedFrom(ks, p, i + 1) && i < |ks| && 0 <= ks[i] < 65536
    ensures ftab[ks[i]] - 1 == Stable(ks, i) && 0 <= Stable(ks, i) < |p|
    ensures MovedFrom(ks, ftab[ks[i] := Stable(ks, i)], i) && DroppedFrom(ks, p[Stable(ks, i) := i], i)
  {
    StableRange(ks, i);
    forall k | i < k < |ks| ensures Stable(ks, k) != Stable(ks, i) {
      StableInjective(ks, i, k);
    }
  }

  lemma MoveEnds(b: seq<Byte>, ftab: seq<int>, p: seq<int>)
    requires MovedFrom(KeysOf(b), ftab, 0) && DroppedFrom(KeysOf(b), p, 0)
    ensures Placed(KeysOf(b), p) && IsNext(KeysOf(b), p) && forall sb :: 0 <= sb <= 65536 ==> ftab[sb] == Begin(b, sb)
  {
    var ks := KeysOf(b);
    FilledIsNext(ks, p);
    forall k | 0 <= k < |p| ensures Smaller(ks, ks[p[k]], |ks|) <= k < UpTo(ks, ks[p[k]], |ks|) {
      NextStable(ks, p, k);
      StableRange(ks, p[k]);
    }
  }

  /** Put every position into the bucket of its pair, earlier positions first. */
  method DropPairs(ptr: array<int>, block: array<Byte>, ftab: array<int>, n: nat, ghost b: seq<Byte>)
    requires ptr != ftab && n == |b| == ptr.Length && b != [] && n <= block.Length && ftab.Length == 65537
      && block[..n] == b
    requires forall c :: 0 <= c < 65537 ==> ftab[c] == UpTo(KeysOf(b), c, n)
    modifies ptr, ftab
    ensures Placed(KeysOf(b), ptr[..]) && IsNext(KeysOf(b), ptr[..])
      && forall sb :: 0 <= sb <= 65536 ==> ftab[sb] == Begin(b, sb)
  {
    hide Key, MovedFrom, DroppedFrom, Begin, Placed, IsNext;
    MoveBegins(KeysOf(b), ftab[..], ptr[..]);
    KeyStart(b);
    var s, i := 256 * (block[0] as int), n;
    while i > 0
      invariant 0 <= i <= n && s / 256 == At(b, i) && block[..n] == b
      invariant MovedFrom(KeysOf(b), ftab[..], i) && DroppedFrom(KeysOf(b), ptr[..], i)
    {
      i := i - 1;
      ghost var f, p := ftab[..], ptr[..];
      assert block[i] == b[i];
      KeyStep(b, i, s);
      MoveOne(KeysOf(b), f, p, i);
      s := s / 256 + 256 * (block[i] as int);
      var j := ftab[s] - 1;
      ftab[s] := j;
      ptr[j] := i;
      assert ftab[..] == f[s := j] && ptr[..] == p[j := i];
    }
    MoveEnds(b, ftab[..], ptr[..]);
  }

  /** Positions with the same pair stay as they are. */
  lemma UniformDropped(b: seq<Byte>, p: seq<int>)
    requires Uniform(b) && IsNext(KeysOf(b), p)
    ensures forall k :: 0 <= k < |b| ==> p[k] == k
  {
    var ks := KeysOf(b);
    forall x | 0 <= x < |b| ensures ks[x] == ks[0] {
      UniformKey(b, 0);
      UniformKey(b, x);
    }
    forall k | 0 <= k < |b| ensures p[k] == k {
      SmallerBound(ks, ks[0], |b|);
      CountEqual(ks, ks[0], k);
      assert Stable(ks, k) == k;
    }
  }

  /** Continue block and quadrants into the overshoot area. */
  method Overshoot(block: array<Byte>, quadrant: array<int>, n: nat, ghost b: seq<Byte>)
    requires n == |b| && BZ_N_OVERSHOOT <= n && block.Length == n + BZ_N_OVERSHOOT == quadrant.Length && block[..n] == b
    requires forall i :: 0 <= i < n ==> quadrant[i] == 0
    modifies block, quadrant
    ensures Continued(block[..], b) && QuadrantsContinued(quadrant[..], n) && block[..n] == b
      && forall i :: 0 <= i < n ==> quadrant[i] == 0
  {
    for i := 0 to BZ_N_OVERSHOOT
      invariant block[..n] == b && forall k :: 0 <= k < n + i ==> quadrant[k] == 0
      invariant forall k :: n <= k < n + i ==> block[k] == b[k - n]
    {
      block[n + i] := block[i];
      quadrant[n + i] := 0;
    }
    forall i | 0 <= i < block.Length ensures block[i] == At(b, i) {
      assert Wrap(n, i) == if i < n then i else i - n;
      if i < n {
        assert block[..n][i] == b[i];
      }
    }
  }
}
