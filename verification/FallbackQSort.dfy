/** The in-place sort inside the fallback block sort: a three-way quicksort on
    an explicit stack, with a gapped insertion sort for short ranges. Entries
    of `fmap` are ordered by their class `e[fmap[i]]`. */
module FallbackQSort {
  import opened Permutations

  ghost predicate InRange(s: seq<int>, m: int) {
    forall i :: 0 <= i < |s| ==> 0 <= s[i] < m
  }

  /** Entries a and b are in order. */
  ghost predicate Ord(e: seq<int>, s: seq<int>, a: int, b: int)
    requires InRange(s, |e|) && 0 <= a < |s| && 0 <= b < |s|
  {
    e[s[a]] <= e[s[b]]
  }

  ghost predicate SortedRange(e: seq<int>, s: seq<int>, lo: int, hi: int)
    requires InRange(s, |e|) && 0 <= lo && hi < |s|
  {
    forall a, b :: lo <= a < b <= hi ==> Ord(e, s, a, b)
  }

  /** All classes are the same: there is nothing to sort. */
  ghost predicate Flat(e: seq<int>) {
    forall x :: 0 <= x < |e| ==> e[x] == e[0]
  }

  // ----- insertion sort ----------------------------------------------------

  /** All of lo..hi except the hole is sorted, and what lies before the hole is
      smaller than the entry waiting to go in. */
  ghost predicate Hole(e: seq<int>, s: seq<int>, lo: int, hi: int, hole: int, tmp: int)
    requires InRange(s, |e|) && 0 <= lo <= hole <= hi < |s| && 0 <= tmp < |e|
  {
    && (forall a, b :: lo <= a < b <= hi && a != hole && b != hole ==> Ord(e, s, a, b))
    && (forall a :: lo <= a < hole ==> e[s[a]] < e[tmp])
  }

  lemma HoleStep(e: seq<int>, s: seq<int>, lo: int, hi: int, h: int, tmp: int)
    requires InRange(s, |e|) && 0 <= lo <= h < hi < |s| && 0 <= tmp < |e|
    requires Hole(e, s, lo, hi, h, tmp) && e[tmp] > e[s[h + 1]]
    ensures InRange(s[h := s[h + 1]], |e|) && Hole(e, s[h := s[h + 1]], lo, hi, h + 1, tmp)
  {
    var t := s[h := s[h + 1]];
    forall a, b | lo <= a < b <= hi && a != h + 1 && b != h + 1 ensures Ord(e, t, a, b) {
      assert Ord(e, s, if a == h then h + 1 else a, if b == h then h + 1 else b);
    }
  }

  lemma HoleFill(e: seq<int>, s: seq<int>, lo: int, hi: int, h: int, tmp: int)
    requires InRange(s, |e|) && 0 <= lo <= h <= hi < |s| && 0 <= tmp < |e|
    requires Hole(e, s, lo, hi, h, tmp) && (h < hi ==> e[tmp] <= e[s[h + 1]])
    ensures InRange(s[h := tmp], |e|) && SortedRange(e, s[h := tmp], lo, hi)
  {
    var t := s[h := tmp];
    forall a, b | lo <= a < b <= hi ensures Ord(e, t, a, b) {
      if a != h && b != h {
        assert Ord(e, s, a, b);
      } else if a == h && b != h + 1 {
        assert Ord(e, s, h + 1, b);
      }
    }
  }

  /** Moving an entry into the hole moves the hole. */
  lemma ShiftPermutes(start: seq<int>, s: seq<int>, h: nat, j: nat, tmp: int, lo: int, hi: int)
    requires 0 <= lo <= h <= hi < |s| && lo <= j <= hi && h != j
    requires Permuted(start, s[h := tmp], lo, hi)
    ensures Permuted(start, s[h := s[j]][j := tmp], lo, hi)
  {
    assert s[h := s[j]][j := tmp] == Swapped(s[h := tmp], h, j);
    SwapPermutes(s[h := tmp], h, j, lo, hi);
    PermutedTrans(start, s[h := tmp], s[h := s[j]][j := tmp], lo, hi);
  }

  /** The state while entry tmp is on its way up to the hole. */
  ghost predicate Sliding(e: seq<int>, start: seq<int>, s: seq<int>, i: nat, hi: nat, hole: nat, tmp: int, gap: nat) {
    && i <= hole <= hi < |s| && InRange(s, |e|) && 0 <= tmp < |e| && Permuted(start, s[hole := tmp], i, hi)
    && (gap == 1 ==> Hole(e, s, i, hi, hole, tmp))
  }

  lemma SlideBegins(e: seq<int>, s: seq<int>, i: nat, hi: nat, gap: nat)
    requires InRange(s, |e|) && i < hi < |s| && (gap == 1 ==> SortedRange(e, s, i + 1, hi))
    ensures Sliding(e, s, s, i, hi, i, s[i], gap) && 0 <= s[i] < |e|
  {
    assert s[i := s[i]] == s;
  }

  lemma SlideFacts(e: seq<int>, start: seq<int>, s: seq<int>, i: nat, hi: nat, hole: nat, tmp: int, gap: nat, j: nat)
    requires Sliding(e, start, s, i, hi, hole, tmp, gap) && j <= hi
    ensures 0 <= s[j] < |e|
  {
  }

  lemma SlideOn(e: seq<int>, start: seq<int>, s: seq<int>, i: nat, hi: nat, hole: nat, tmp: int, gap: nat)
    requires Sliding(e, start, s, i, hi, hole, tmp, gap) && gap > 0 && hole + gap <= hi && 0 <= s[hole + gap] < |e|
      && e[tmp] > e[s[hole + gap]]
    ensures Sliding(e, start, s[hole := s[hole + gap]], i, hi, hole + gap, tmp, gap)
  {
    hide Permuted, Hole;
    ShiftPermutes(start, s, hole, hole + gap, tmp, i, hi);
    if gap == 1 {
      HoleStep(e, s, i, hi, hole, tmp);
    }
  }

  lemma SlideEnds(e: seq<int>, start: seq<int>, s: seq<int>, i: nat, hi: nat, hole: nat, tmp: int, gap: nat)
    requires Sliding(e, start, s, i, hi, hole, tmp, gap) && gap > 0
    requires hole + gap > hi || (0 <= s[hole + gap] < |e| && e[tmp] <= e[s[hole + gap]])
    ensures var t := s[hole := tmp];
      Permuted(start, t, i, hi) && InRange(t, |e|) && (gap == 1 ==> SortedRange(e, t, i, hi))
  {
    hide Permuted, Hole;
    if gap == 1 {
      HoleFill(e, s, i, hi, hole, tmp);
    }
  }

  /** Insert fmap[i] into the entries `gap` places apart that follow it; with a
      gap of one, into the sorted range after it. */
  method Insert(fmap: array<int>, e: seq<int>, i: nat, hi: nat, gap: nat)
    requires InRange(fmap[..], |e|) && gap > 0 && i + gap <= hi < fmap.Length
    requires gap == 1 ==> SortedRange(e, fmap[..], i + 1, hi)
    modifies fmap
    ensures Permuted(old(fmap[..]), fmap[..], i, hi) && InRange(fmap[..], |e|)
    ensures gap == 1 ==> SortedRange(e, fmap[..], i, hi)
    ensures Flat(e) ==> fmap[..] == old(fmap[..])
  {
    hide Permuted, InRange, Sliding, SortedRange;
    var tmp := fmap[i];
    var j := i + gap;
    ghost var start, s := fmap[..], fmap[..];
    SlideBegins(e, s, i, hi, gap);
    while true
      invariant i + gap <= j <= hi + gap && s == fmap[..] && Sliding(e, start, s, i, hi, j - gap, tmp, gap)
      invariant Flat(e) ==> j == i + gap && s == start
      decreases hi + gap - j
    {
      if j > hi {
        break;
      }
      SlideFacts(e, start, s, i, hi, j - gap, tmp, gap, j);
      if e[tmp] <= e[fmap[j]] {
        break;
      }
      SlideOn(e, start, s, i, hi, j - gap, tmp, gap);
      fmap[j - gap] := fmap[j];
      s := s[j - gap := s[j]];
      j := j + gap;
    }
    SlideEnds(e, start, s, i, hi, j - gap, tmp, gap);
    fmap[j - gap] := tmp;
    assert fmap[..] == s[j - gap := tmp];
  }

  method SimpleSort(fmap: array<int>, e: seq<int>, lo: nat, hi: int)
    requires InRange(fmap[..], |e|) && hi < fmap.Length && lo <= hi + 1
    modifies fmap
    ensures Permuted(old(fmap[..]), fmap[..], lo, hi) && InRange(fmap[..], |e|)
    ensures SortedRange(e, fmap[..], lo, hi)
    ensures Flat(e) ==> fmap[..] == old(fmap[..])
  {
    if lo == hi {
      return;
    }
    hide Flat;
    ghost var start := fmap[..];
    var i: int;
    if hi - lo > 3 {
      i := hi - 4;
      while i >= lo
        invariant lo - 1 <= i <= hi - 4
        invariant InRange(fmap[..], |e|) && Permuted(start, fmap[..], lo, hi) && (Flat(e) ==> fmap[..] == start)
      {
        ghost var s := fmap[..];
        Insert(fmap, e, i, hi, 4);
        PermutedWiden(s, fmap[..], i, hi, lo, hi);
        PermutedTrans(start, s, fmap[..], lo, hi);
        i := i - 1;
      }
    }
    i := hi - 1;
    while i >= lo
      invariant lo - 1 <= i <= hi - 1 || lo == hi + 1
      invariant InRange(fmap[..], |e|) && Permuted(start, fmap[..], lo, hi) && (Flat(e) ==> fmap[..] == start)
      invariant lo <= hi ==> SortedRange(e, fmap[..], i + 1, hi)
    {
      ghost var s := fmap[..];
      Insert(fmap, e, i, hi, 1);
      PermutedWiden(s, fmap[..], i, hi, lo, hi);
      PermutedTrans(start, s, fmap[..], lo, hi);
      i := i - 1;
    }
  }
}
