/** One partitioning step of the fallback quicksort: entries equal to the pivot
    class gather at both ends, then are swapped into the middle. */
module FallbackPartition {
  import opened Permutations
  import opened FallbackQSort

  /** The scan's zones: equal, less, unexamined, greater, equal. */
  datatype Zones = Zones(ltLo: int, unLo: int, unHi: int, gtHi: int)

  ghost predicate Zoned(e: seq<int>, s: seq<int>, lo: int, hi: int, med: int, z: Zones)
  {
    && 0 <= lo <= z.ltLo <= z.unLo <= z.unHi + 1 <= z.gtHi + 1 <= hi + 1 <= |s|
    && InRange(s, |e|)
    && (forall a :: lo <= a < z.ltLo ==> e[s[a]] == med)
    && (forall a :: z.ltLo <= a < z.unLo ==> e[s[a]] < med)
    && (forall a :: z.unHi < a <= z.gtHi ==> e[s[a]] > med)
    && (forall a :: z.gtHi < a <= hi ==> e[s[a]] == med)
  }

  /** All classes are the pivot's: the scan only meets equal entries. */
  ghost predicate OnlyPivot(e: seq<int>, med: int) {
    forall x :: 0 <= x < |e| ==> e[x] == med
  }

  lemma EqualLow(e: seq<int>, s: seq<int>, lo: int, hi: int, med: int, z: Zones)
    requires Zoned(e, s, lo, hi, med, z) && z.unLo <= z.unHi && e[s[z.unLo]] == med
    ensures Zoned(e, Swapped(s, z.unLo, z.ltLo), lo, hi, med, z.(ltLo := z.ltLo + 1, unLo := z.unLo + 1))
    ensures Permuted(s, Swapped(s, z.unLo, z.ltLo), lo, hi) && (OnlyPivot(e, med) ==> Swapped(s, z.unLo, z.ltLo) == s)
  {
    SwapPermutes(s, z.unLo, z.ltLo, lo, hi);
  }

  lemma EqualHigh(e: seq<int>, s: seq<int>, lo: int, hi: int, med: int, z: Zones)
    requires Zoned(e, s, lo, hi, med, z) && z.unLo <= z.unHi && e[s[z.unHi]] == med
    ensures Zoned(e, Swapped(s, z.unHi, z.gtHi), lo, hi, med, z.(gtHi := z.gtHi - 1, unHi := z.unHi - 1))
    ensures Permuted(s, Swapped(s, z.unHi, z.gtHi), lo, hi)
  {
    SwapPermutes(s, z.unHi, z.gtHi, lo, hi);
  }

  lemma Cross(e: seq<int>, s: seq<int>, lo: int, hi: int, med: int, z: Zones)
    requires Zoned(e, s, lo, hi, med, z) && z.unLo < z.unHi && e[s[z.unLo]] > med && e[s[z.unHi]] < med
    ensures Zoned(e, Swapped(s, z.unLo, z.unHi), lo, hi, med, z.(unLo := z.unLo + 1, unHi := z.unHi - 1))
  {
  }

  method ScanUp(fmap: array<int>, e: seq<int>, lo: nat, hi: int, med: int, z0: Zones) returns (z: Zones)
    requires hi < fmap.Length && Zoned(e, fmap[..], lo, hi, med, z0)
    modifies fmap
    ensures Zoned(e, fmap[..], lo, hi, med, z) && z.unHi == z0.unHi && z.gtHi == z0.gtHi && z.unLo >= z0.unLo
    ensures Permuted(old(fmap[..]), fmap[..], lo, hi)
    ensures z.unLo > z.unHi || e[fmap[z.unLo]] > med
    ensures OnlyPivot(e, med) ==> z.unLo > z.unHi && fmap[..] == old(fmap[..])
  {
    z := z0;
    ghost var start := fmap[..];
    hide Permuted, Swapped;
    PermutedRefl(start, lo, hi);
    while z.unLo <= z.unHi && e[fmap[z.unLo]] <= med
      invariant Zoned(e, fmap[..], lo, hi, med, z) && z.unHi == z0.unHi && z.gtHi == z0.gtHi && z.unLo >= z0.unLo
      invariant Permuted(start, fmap[..], lo, hi) && (OnlyPivot(e, med) ==> fmap[..] == start)
      decreases z.unHi - z.unLo
    {
      if e[fmap[z.unLo]] == med {
        ghost var s := fmap[..];
        EqualLow(e, s, lo, hi, med, z);
        PermutedTrans(start, s, Swapped(s, z.unLo, z.ltLo), lo, hi);
        Swap(fmap, z.unLo, z.ltLo);
        z := z.(ltLo := z.ltLo + 1, unLo := z.unLo + 1);
      } else {
        z := z.(unLo := z.unLo + 1);
      }
    }
  }

  method ScanDown(fmap: array<int>, e: seq<int>, lo: nat, hi: int, med: int, z0: Zones) returns (z: Zones)
    requires hi < fmap.Length && Zoned(e, fmap[..], lo, hi, med, z0)
    requires z0.unLo > z0.unHi || e[fmap[z0.unLo]] > med
    modifies fmap
    ensures Zoned(e, fmap[..], lo, hi, med, z) && z.unLo == z0.unLo && z.ltLo == z0.ltLo && z.unHi <= z0.unHi
    ensures Permuted(old(fmap[..]), fmap[..], lo, hi)
    ensures z.unLo > z.unHi || (z.unLo < z.unHi && e[fmap[z.unHi]] < med && e[fmap[z.unLo]] > med)
    ensures z0.unLo > z0.unHi ==> fmap[..] == old(fmap[..])
  {
    z := z0;
    ghost var start := fmap[..];
    hide Permuted, Swapped;
    PermutedRefl(start, lo, hi);
    while z.unLo <= z.unHi && e[fmap[z.unHi]] >= med
      invariant Zoned(e, fmap[..], lo, hi, med, z) && z.unLo == z0.unLo && z.ltLo == z0.ltLo && z.unHi <= z0.unHi
      invariant z.unLo > z.unHi || e[fmap[z.unLo]] > med
      invariant Permuted(start, fmap[..], lo, hi) && (z0.unLo > z0.unHi ==> fmap[..] == start)
      decreases z.unHi - z.unLo
    {
      if e[fmap[z.unHi]] == med {
        ghost var s := fmap[..];
        EqualHigh(e, s, lo, hi, med, z);
        PermutedTrans(start, s, Swapped(s, z.unHi, z.gtHi), lo, hi);
        Swap(fmap, z.unHi, z.gtHi);
        z := z.(gtHi := z.gtHi - 1, unHi := z.unHi - 1);
      } else {
        z := z.(unHi := z.unHi - 1);
      }
    }
  }

  /** Swap a greater entry on the left with a smaller one on the right. */
  method CrossSwap(fmap: array<int>, e: seq<int>, lo: nat, hi: int, med: int, z0: Zones) returns (z: Zones)
    requires hi < fmap.Length && Zoned(e, fmap[..], lo, hi, med, z0)
    requires z0.unLo < z0.unHi && e[fmap[z0.unHi]] < med && e[fmap[z0.unLo]] > med
    modifies fmap
    ensures Zoned(e, fmap[..], lo, hi, med, z) && z.unLo == z0.unLo + 1 && z.unHi == z0.unHi - 1
    ensures Permuted(old(fmap[..]), fmap[..], lo, hi)
  {
    ghost var s := fmap[..];
    Cross(e, s, lo, hi, med, z0);
    SwapPermutes(s, z0.unLo, z0.unHi, lo, hi);
    Swap(fmap, z0.unLo, z0.unHi);
    z := z0.(unLo := z0.unLo + 1, unHi := z0.unHi - 1);
  }

  /** One round of the scan: up, down, and a swap unless the scans met. */
  method ScanRound(fmap: array<int>, e: seq<int>, lo: nat, hi: int, med: int, z0: Zones) returns (z: Zones, done: bool)
    requires hi < fmap.Length && Zoned(e, fmap[..], lo, hi, med, z0)
    modifies fmap
    ensures Zoned(e, fmap[..], lo, hi, med, z)
    ensures Permuted(old(fmap[..]), fmap[..], lo, hi)
    ensures if done then z.unHi == z.unLo - 1 else z.unHi - z.unLo < z0.unHi - z0.unLo
    ensures OnlyPivot(e, med) ==> done && fmap[..] == old(fmap[..])
  {
    hide Permuted, OnlyPivot;
    ghost var s0 := fmap[..];
    z := ScanUp(fmap, e, lo, hi, med, z0);
    ghost var s1 := fmap[..];
    z := ScanDown(fmap, e, lo, hi, med, z);
    ghost var s2 := fmap[..];
    PermutedTrans(s0, s1, s2, lo, hi);
    done := z.unLo > z.unHi;
    if !done {
      z := CrossSwap(fmap, e, lo, hi, med, z);
      PermutedTrans(s0, s2, fmap[..], lo, hi);
    }
  }

  /** Scan from both ends until nothing is left unexamined. */
  method Scan(fmap: array<int>, e: seq<int>, lo: nat, hi: int, med: int) returns (z: Zones)
    requires lo <= hi < fmap.Length && InRange(fmap[..], |e|)
    modifies fmap
    ensures Zoned(e, fmap[..], lo, hi, med, z) && z.unHi == z.unLo - 1
    ensures Permuted(old(fmap[..]), fmap[..], lo, hi)
    ensures OnlyPivot(e, med) ==> fmap[..] == old(fmap[..])
  {
    z := Zones(lo, lo, hi, hi);
    ghost var start := fmap[..];
    var done := false;
    assert Zoned(e, start, lo, hi, med, z);
    hide Permuted, Zoned, OnlyPivot;
    PermutedRefl(start, lo, hi);
    while !done
      invariant Zoned(e, fmap[..], lo, hi, med, z) && (OnlyPivot(e, med) ==> fmap[..] == start)
      invariant Permuted(start, fmap[..], lo, hi)
      invariant done ==> z.unHi == z.unLo - 1
      decreases !done, z.unHi - z.unLo + 1
    {
      ghost var s := fmap[..];
      ZoneBounds(e, s, lo, hi, med, z);
      z, done := ScanRound(fmap, e, lo, hi, med, z);
      PermutedTrans(start, s, fmap[..], lo, hi);
    }
  }

  lemma ZoneBounds(e: seq<int>, s: seq<int>, lo: int, hi: int, med: int, z: Zones)
    requires Zoned(e, s, lo, hi, med, z)
    ensures 0 <= lo <= z.ltLo <= z.unLo <= z.unHi + 1 <= z.gtHi + 1 <= hi + 1 <= |s| && InRange(s, |e|)
  {
  }

  /** s with the n entries from p1 on exchanged with the n entries from p2 on. */
  ghost predicate BlockSwapped(s: seq<int>, t: seq<int>, p1: int, p2: int, n: int) {
    && 0 <= p1 && 0 <= n && p1 + n <= p2 && p2 + n <= |s| == |t|
    && (forall k :: p1 <= k < p1 + n ==> t[k] == s[k + (p2 - p1)])
    && (forall k :: p2 <= k < p2 + n ==> t[k] == s[k - (p2 - p1)])
    && (forall k :: 0 <= k < |s| && !(p1 <= k < p1 + n) && !(p2 <= k < p2 + n) ==> t[k] == s[k])
  }

  lemma BlockSwapMore(s: seq<int>, t: seq<int>, p1: int, p2: int, n: int)
    requires BlockSwapped(s, t, p1, p2, n) && p1 + n < p2 && p2 + n < |s|
    ensures BlockSwapped(s, Swapped(t, p1 + n, p2 + n), p1, p2, n + 1)
  {
  }

  /** fvswap */
  method VSwap(fmap: array<int>, p1: nat, p2: nat, n: nat, ghost lo: nat, ghost hi: int)
    requires lo <= p1 && p1 + n <= p2 && p2 + n <= hi + 1 <= fmap.Length
    modifies fmap
    ensures BlockSwapped(old(fmap[..]), fmap[..], p1, p2, n)
    ensures Permuted(old(fmap[..]), fmap[..], lo, hi)
  {
    hide Permuted, BlockSwapped, Swapped;
    ghost var start := fmap[..];
    var i := 0;
    NothingSwapped(start, p1, p2, lo, hi);
    while i < n
      invariant i <= n
      invariant BlockSwapped(start, fmap[..], p1, p2, i) && Permuted(start, fmap[..], lo, hi)
    {
      VSwapStep(start, fmap[..], p1, p2, i, lo, hi);
      Swap(fmap, p1 + i, p2 + i);
      i := i + 1;
    }
  }

  lemma NothingSwapped(s: seq<int>, p1: nat, p2: nat, lo: int, hi: int)
    requires p1 <= p2 <= |s|
    ensures BlockSwapped(s, s, p1, p2, 0) && Permuted(s, s, lo, hi)
  {
  }

  lemma VSwapStep(start: seq<int>, s: seq<int>, p1: nat, p2: nat, i: nat, lo: int, hi: int)
    requires BlockSwapped(start, s, p1, p2, i) && Permuted(start, s, lo, hi)
    requires 0 <= lo <= p1 && p1 + i < p2 && p2 + i <= hi < |s|
    ensures BlockSwapped(start, Swapped(s, p1 + i, p2 + i), p1, p2, i + 1)
    ensures Permuted(start, Swapped(s, p1 + i, p2 + i), lo, hi)
  {
    BlockSwapMore(start, s, p1, p2, i);
    hide Permuted, BlockSwapped, Swapped;
    SwapPermutes(s, p1 + i, p2 + i, lo, hi);
    PermutedTrans(start, s, Swapped(s, p1 + i, p2 + i), lo, hi);
  }

  /** The outcome: smaller, equal and greater entries in that order. */
  ghost predicate Parted(e: seq<int>, s: seq<int>, lo: int, hi: int, med: int, n: int, m: int) {
    && 0 <= lo && lo - 1 <= n < m <= hi + 1 <= |s|
    && InRange(s, |e|)
    && (forall a :: lo <= a <= n ==> e[s[a]] < med)
    && (forall a :: n < a < m ==> e[s[a]] == med)
    && (forall a :: m <= a <= hi ==> e[s[a]] > med)
  }

  function Min(a: int, b: int): int {
    if a < b then a else b
  }

  /** After the first exchange: smaller, equal, greater, equal. */
  ghost predicate HalfParted(e: seq<int>, s: seq<int>, lo: int, hi: int, med: int, z: Zones) {
    && 0 <= lo <= z.ltLo <= z.unLo == z.unHi + 1 <= z.gtHi + 1 <= hi + 1 <= |s|
    && InRange(s, |e|)
    && (forall a :: lo <= a < lo + z.unLo - z.ltLo ==> e[s[a]] < med)
    && (forall a :: lo + z.unLo - z.ltLo <= a < z.unLo ==> e[s[a]] == med)
    && (forall a :: z.unHi < a <= z.gtHi ==> e[s[a]] > med)
    && (forall a :: z.gtHi < a <= hi ==> e[s[a]] == med)
  }

  lemma LeftExchanged(e: seq<int>, s: seq<int>, t: seq<int>, lo: int, hi: int, med: int, z: Zones)
    requires Zoned(e, s, lo, hi, med, z) && z.unHi == z.unLo - 1
    requires var n := Min(z.ltLo - lo, z.unLo - z.ltLo); BlockSwapped(s, t, lo, z.unLo - n, n)
    ensures HalfParted(e, t, lo, hi, med, z)
  {
  }

  lemma RightExchanged(e: seq<int>, s: seq<int>, t: seq<int>, lo: int, hi: int, med: int, z: Zones)
    requires HalfParted(e, s, lo, hi, med, z)
    requires var m := Min(hi - z.gtHi, z.gtHi - z.unHi); BlockSwapped(s, t, z.unLo, hi - m + 1, m)
    ensures Parted(e, t, lo, hi, med, lo + z.unLo - z.ltLo - 1, hi - (z.gtHi - z.unHi) + 1)
  {
  }

  /** Exchange the equal ends with what lies next to them. */
  method Exchange(fmap: array<int>, e: seq<int>, lo: nat, hi: int, med: int, z: Zones) returns (n: int, m: int)
    requires hi < fmap.Length && Zoned(e, fmap[..], lo, hi, med, z) && z.unHi == z.unLo - 1
    modifies fmap
    ensures Permuted(old(fmap[..]), fmap[..], lo, hi)
    ensures Parted(e, fmap[..], lo, hi, med, n, m)
  {
    hide Permuted, Zoned, BlockSwapped, HalfParted, Parted, InRange;
    ghost var s1 := fmap[..];
    ZoneBounds(e, s1, lo, hi, med, z);
    n := Min(z.ltLo - lo, z.unLo - z.ltLo);
    VSwap(fmap, lo, z.unLo - n, n, lo, hi);
    ghost var s2 := fmap[..];
    LeftExchanged(e, s1, s2, lo, hi, med, z);
    m := Min(hi - z.gtHi, z.gtHi - z.unHi);
    VSwap(fmap, z.unLo, hi - m + 1, m, lo, hi);
    ghost var s3 := fmap[..];
    RightExchanged(e, s2, s3, lo, hi, med, z);
    PermutedTrans(s1, s2, s3, lo, hi);
    n := lo + z.unLo - z.ltLo - 1;
    m := hi - (z.gtHi - z.unHi) + 1;
  }

  lemma EqualAt(e: seq<int>, s: seq<int>, med: int, a: int)
    requires OnlyPivot(e, med) && InRange(s, |e|) && 0 <= a < |s|
    ensures e[s[a]] == med
  {
  }

  /** Only equal entries: the two ends have met. */
  lemma PivotZones(e: seq<int>, s: seq<int>, lo: int, hi: int, med: int, z: Zones)
    requires Zoned(e, s, lo, hi, med, z) && z.unHi == z.unLo - 1
    ensures OnlyPivot(e, med) ==> z.gtHi < z.ltLo
  {
    if OnlyPivot(e, med) && z.ltLo <= z.gtHi {
      EqualAt(e, s, med, z.ltLo);
      EqualAt(e, s, med, z.gtHi);
    }
  }

  ghost predicate AllEqual(e: seq<int>, s: seq<int>, lo: int, hi: int, med: int) {
    0 <= lo && hi < |s| && InRange(s, |e|) && forall a :: lo <= a <= hi ==> e[s[a]] == med
  }

  /** Partition lo..hi around the class med. */
  method Partition(fmap: array<int>, e: seq<int>, lo: nat, hi: int, med: int) returns (n: int, m: int, allEqual: bool)
    requires lo <= hi < fmap.Length && InRange(fmap[..], |e|)
    modifies fmap
    ensures Permuted(old(fmap[..]), fmap[..], lo, hi)
    ensures if allEqual then AllEqual(e, fmap[..], lo, hi, med) else Parted(e, fmap[..], lo, hi, med, n, m)
    ensures OnlyPivot(e, med) ==> allEqual && fmap[..] == old(fmap[..])
  {
    n, m := 0, 0;
    ghost var s0 := fmap[..];
    var z := Scan(fmap, e, lo, hi, med);
    ghost var s1 := fmap[..];
    PivotZones(e, s1, lo, hi, med, z);
    allEqual := z.gtHi < z.ltLo;
    if allEqual {
      return;
    }
    hide Permuted, Zoned, Parted;
    n, m := Exchange(fmap, e, lo, hi, med, z);
    PermutedTrans(s0, s1, fmap[..], lo, hi);
  }
}
