/** The order in which the main sort takes the big buckets: by size, with a
    shell sort. */
module MainOrder {
  import opened Permutations
  import opened FallbackQSort
  import opened MainSimpleSort

  /** The state while entry v is on its way down to place j. */
  ghost predicate Sinking(sizes: seq<int>, start: seq<int>, s: seq<int>, i: nat, j: nat, v: int, h: nat) {
    && j <= i < |s| && InRange(s, |sizes|) && 0 <= v < |sizes| && Permuted(start, s[j := v], 0, |s| - 1)
    && (h == 1 ==> HoleBack(sizes, s, 0, i, j, v))
  }

  lemma SinkBegins(sizes: seq<int>, s: seq<int>, i: nat, h: nat)
    requires InRange(s, |sizes|) && 0 < h <= i < |s| && (h == 1 ==> SortedRange(sizes, s, 0, i - 1))
    ensures Sinking(sizes, s, s, i, i, s[i], h) && 0 <= s[i] < |sizes|
  {
    assert s[i := s[i]] == s;
    if h == 1 {
      forall a, c | 0 <= a < c <= i && a != i && c != i ensures Ord(sizes, s, a, c) {
      }
    }
  }

  lemma SinkOn(sizes: seq<int>, start: seq<int>, s: seq<int>, i: nat, j: nat, v: int, h: nat)
    requires Sinking(sizes, start, s, i, j, v, h) && 0 < h <= j
    ensures 0 <= s[j - h] < |sizes|
    ensures sizes[v] <= sizes[s[j - h]] ==> Sinking(sizes, start, s[j := s[j - h]], i, j - h, v, h)
  {
    if sizes[v] <= sizes[s[j - h]] {
      hide Permuted, HoleBack;
      ShiftPermutes(start, s, j, j - h, v, 0, |s| - 1);
      if h == 1 {
        HoleBackStep(sizes, s, 0, i, j, v);
      }
    }
  }

  lemma SinkEnds(sizes: seq<int>, start: seq<int>, s: seq<int>, i: nat, j: nat, v: int, h: nat)
    requires Sinking(sizes, start, s, i, j, v, h) && 0 < h
      && (j < h || (0 <= s[j - h] < |sizes| && sizes[s[j - h]] <= sizes[v]))
    ensures var t := s[j := v];
      Permuted(start, t, 0, |t| - 1) && InRange(t, |sizes|) && (h == 1 ==> SortedRange(sizes, t, 0, i))
  {
    hide Permuted, HoleBack;
    if h == 1 {
      HoleBackFill(sizes, s, 0, i, j, v);
    }
  }

  method Sink(running: array<int>, sizes: seq<int>, i: nat, h: nat)
    requires 0 < h <= i < running.Length && InRange(running[..], |sizes|)
      && (h == 1 ==> SortedRange(sizes, running[..], 0, i - 1))
    modifies running
    ensures Permuted(old(running[..]), running[..], 0, running.Length - 1) && InRange(running[..], |sizes|)
    ensures h == 1 ==> SortedRange(sizes, running[..], 0, i)
  {
    hide Permuted, InRange, Sinking, SortedRange;
    var vv, j := running[i], i;
    ghost var start, s := running[..], running[..];
    SinkBegins(sizes, s, i, h);
    while true
      invariant h <= j <= i && s == running[..] && Sinking(sizes, start, s, i, j, vv, h)
      decreases j
    {
      SinkOn(sizes, start, s, i, j, vv, h);
      if sizes[running[j - h]] <= sizes[vv] {
        break;
      }
      running[j] := running[j - h];
      s := s[j := s[j - h]];
      j := j - h;
      if j <= h - 1 {
        break;
      }
    }
    SinkEnds(sizes, start, s, i, j, vv, h);
    running[j] := vv;
    assert running[..] == s[j := vv];
  }

  /** One pass of the shell sort. */
  method SizePass(running: array<int>, sizes: seq<int>, h: nat)
    requires running.Length == 256 && 0 < h <= 256 && InRange(running[..], |sizes|)
    modifies running
    ensures Permuted(old(running[..]), running[..], 0, 255) && InRange(running[..], |sizes|)
    ensures h == 1 ==> SortedRange(sizes, running[..], 0, 255)
  {
    hide Permuted, InRange, SortedRange;
    ghost var start := running[..];
    PermutedRefl(start, 0, 255);
    OneSorted(sizes, start, h);
    for i := h to 256
      invariant Permuted(start, running[..], 0, 255) && InRange(running[..], |sizes|)
      invariant h == 1 ==> SortedRange(sizes, running[..], 0, i - 1)
    {
      ghost var s := running[..];
      Sink(running, sizes, i, h);
      PermutedTrans(start, s, running[..], 0, 255);
    }
  }

  lemma OneSorted(sizes: seq<int>, s: seq<int>, h: nat)
    requires |s| == 256 && InRange(s, |sizes|)
    ensures h == 1 ==> SortedRange(sizes, s, 0, h - 1)
  {
  }

  /** Big buckets from the smallest to the largest, each once. */
  method RunningOrder(sizes: seq<int>) returns (order: seq<int>)
    requires |sizes| == 256
    ensures |order| == 256 && IsPerm(order) && InRange(order, 256) && SortedRange(sizes, order, 0, 255)
  {
    var running := new int[256];
    for i := 0 to 256
      invariant forall k :: 0 <= k < i ==> running[k] == k
    {
      running[i] := i;
    }
    ghost var start := running[..];
    PermutedRefl(start, 0, 255);
    var h := 1;
    while true
      invariant h == 1 || h == 4 || h == 13 || h == 40 || h == 121
      decreases 257 - h
    {
      h := 3 * h + 1;
      if h > 256 {
        break;
      }
    }
    hide Permuted, SortedRange;
    while true
      invariant h == 4 || h == 13 || h == 40 || h == 121 || h == 364
      invariant Permuted(start, running[..], 0, 255) && InRange(running[..], 256)
      decreases h
    {
      ghost var s := running[..];
      h := h / 3;
      SizePass(running, sizes, h);
      PermutedTrans(start, s, running[..], 0, 255);
      if h == 1 {
        break;
      }
    }
    order := running[..];
    PermutedMultiset(start, order);
    PermutedIsPerm(start, order);
  }

  lemma PermutedMultiset(s: seq<int>, t: seq<int>)
    requires Permuted(s, t, 0, 255)
    ensures |s| == |t| && multiset(s) == multiset(t)
  {
  }
}
