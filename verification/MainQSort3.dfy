/** The three-way radix quicksort of the main sort: like the fallback's, but
    each range has a depth, the number of bytes its rotations share. */
module MainQSort3 {
  import opened Arithmetic
  import opened Permutations
  import opened Sizes
  import opened Rotations
  import opened FallbackQSort
  import opened FallbackPartition
  import opened FallbackStack
  import opened MainCompare
  import opened MainSimpleSort

  const MAIN_QSORT_SMALL_THRESH := 20
  const MAIN_QSORT_DEPTH_THRESH := BZ_N_RADIX + BZ_N_QSORT
  const MAIN_QSORT_STACK_SIZE := 100

  // ----- ranges that share their first bytes -------------------------------

  ghost predicate Alike(b: seq<Byte>, s: seq<int>, lo: int, hi: int, d: nat) {
    b != [] && 0 <= lo && hi < |s| && InRange(s, |b|)
      && forall a, c :: lo <= a <= hi && lo <= c <= hi ==> Same(b, s[a], s[c], d)
  }

  lemma AlikeAgree(b: seq<Byte>, s: seq<int>, lo: nat, hi: int, d: nat)
    requires Alike(b, s, lo, hi, d)
    ensures lo <= hi ==> s[lo] >= 0
    ensures Agree(b, s, lo, hi, d, if lo <= hi then s[lo] else 0)
  {
  }

  lemma AgreeAlike(b: seq<Byte>, s: seq<int>, lo: int, hi: int, d: nat, x0: nat)
    requires Agree(b, s, lo, hi, d, x0)
    ensures Alike(b, s, lo, hi, d)
  {
    forall a, c | lo <= a <= hi && lo <= c <= hi ensures Same(b, s[a], s[c], d) {
      SameBoth(b, x0, s[a], s[c], d);
    }
  }

  lemma SameBoth(b: seq<Byte>, x0: nat, x: nat, y: nat, d: nat)
    requires b != [] && Same(b, x0, x, d) && Same(b, x0, y, d)
    ensures Same(b, x, y, d)
  {
    Trichotomy(b, x0, x, d);
    Trichotomy(b, x0, y, d);
    Trichotomy(b, x, x0, d);
    Transitivity(b, x, x0, y, d);
  }

  lemma AlikePermuted(b: seq<Byte>, s: seq<int>, t: seq<int>, lo: nat, hi: int, d: nat)
    requires Alike(b, s, lo, hi, d) && Permuted(s, t, lo, hi) && InRange(t, |b|)
    ensures Alike(b, t, lo, hi, d)
  {
    AlikeAgree(b, s, lo, hi, d);
    AgreePermuted(b, s, t, lo, hi, d, if lo <= hi then s[lo] else 0);
    AgreeAlike(b, t, lo, hi, d, if lo <= hi then s[lo] else 0);
  }

  /** Entries elsewhere are not affected by rearranging a range. */
  lemma AlikeElsewhere(b: seq<Byte>, s: seq<int>, t: seq<int>, p: Span, lo: int, hi: int, d: nat)
    requires Alike(b, s, lo, hi, d) && Permuted(s, t, p.lo, p.hi) && InRange(t, |b|)
      && (lo > hi || Apart(Span(lo, hi), p))
    ensures Alike(b, t, lo, hi, d)
  {
    hide Same;
    forall a | lo <= a <= hi ensures s[a] == t[a] {
    }
  }

  // ----- the byte at depth d -----------------------------------------------

  /** The byte every rotation has at depth d. */
  ghost function KeyAt(b: seq<Byte>, x: nat, d: nat): Byte
    requires b != []
  {
    At(b, x + d)
  }

  lemma ByKey(b: seq<Byte>, rank: seq<int>, x: nat, y: nat, d: nat)
    requires Ranked(b, rank) && x < |b| && y < |b| && Same(b, x, y, d)
    ensures KeyAt(b, x, d) < KeyAt(b, y, d) ==> rank[x] < rank[y]
    ensures KeyAt(b, x, d) == KeyAt(b, y, d) ==> Same(b, x, y, d + 1)
  {
    Split(b, x, y, d, |b|);
    Split(b, x, y, d, 1);
    WholeOrder(b, x, y, d + |b|);
  }

  /** The keys as the partition sees them: block[ptr[i] + d] */
  function Keys(block: seq<Byte>, d: nat): (e: seq<int>)
    requires d <= |block|
    ensures |e| == |block| - d && forall x :: 0 <= x < |e| ==> e[x] == block[x + d]
  {
    seq(|block| - d, x requires 0 <= x < |block| - d => block[x + d])
  }

  lemma KeysAre(block: seq<Byte>, b: seq<Byte>, d: nat, x: nat)
    requires Continued(block, b) && d <= MAX_D && x < |b|
    ensures Keys(block, d)[x] == KeyAt(b, x, d)
  {
  }

  /** Entries split by key: in order except inside the three parts, and the
      middle part shares one byte more. */
  lemma KeyParted(block: seq<Byte>, b: seq<Byte>, rank: seq<int>, t: seq<int>, lo: nat, hi: int, d: nat, med: int,
      n: int, m: int)
    requires Continued(block, b) && d <= MAX_D && Ranked(b, rank) && Alike(b, t, lo, hi, d)
    requires Parted(Keys(block, d), t, lo, hi, med, n, m) && lo - 1 <= n < m <= hi + 1
    ensures SortedExcept(rank, t, lo, hi, [Span(lo, n), Span(m, hi), Span(n + 1, m - 1)])
    ensures Alike(b, t, lo, n, d) && Alike(b, t, m, hi, d) && Alike(b, t, n + 1, m - 1, d + 1)
  {
    var parts := [Span(lo, n), Span(m, hi), Span(n + 1, m - 1)];
    hide Same, Ranked, Permuted;
    RankLength(b, rank);
    forall a, c | lo <= a < c <= hi ensures Ord(rank, t, a, c) || Covered(parts, a, c) {
      if c <= n {
        assert parts[0].lo <= a;
      } else if m <= a {
        assert parts[1].lo <= a;
      } else if n < a && c < m {
        assert parts[2].lo <= a;
      } else {
        KeysAre(block, b, d, t[a]);
        KeysAre(block, b, d, t[c]);
        ByKey(b, rank, t[a], t[c], d);
      }
    }
    forall a, c | n + 1 <= a <= m - 1 && n + 1 <= c <= m - 1 ensures Same(b, t[a], t[c], d + 1) {
      KeysAre(block, b, d, t[a]);
      KeysAre(block, b, d, t[c]);
      ByKey(b, rank, t[a], t[c], d);
    }
  }

  lemma RankLength(b: seq<Byte>, rank: seq<int>)
    requires Ranked(b, rank)
    ensures |rank| == |b| && b != []
  {
  }

  // ----- the stack ---------------------------------------------------------

  datatype Frame = Frame(span: Span, d: nat)

  function Spans(st: seq<Frame>): (r: seq<Span>)
    ensures |r| == |st| && forall k :: 0 <= k < |st| ==> r[k] == st[k].span
  {
    seq(|st|, k requires 0 <= k < |st| => st[k].span)
  }

  /** The most a slot may hold: each at most two thirds of the one below. */
  function Limit(total: int, k: nat): int {
    if k == 0 then total else 2 * Limit(total, k - 1) / 3
  }

  ghost predicate Limited(st: seq<Frame>, total: int) {
    forall k :: 0 <= k < |st| ==> st[k].span.Size() <= Limit(total, k)
  }

  ghost predicate FramesAlike(b: seq<Byte>, s: seq<int>, st: seq<Frame>) {
    forall k :: 0 <= k < |st| ==> st[k].d <= MAX_D && Alike(b, s, st[k].span.lo, st[k].span.hi, st[k].d)
  }

  const MAX_FRAMES := 57

  /** What holds between two turns of the loop. */
  ghost predicate Waiting(b: seq<Byte>, rank: seq<int>, start: seq<int>, s: seq<int>, lo: int, hi: int,
      st: seq<Frame>) {
    && Permuted(start, s, lo, hi) && SortedExcept(rank, s, lo, hi, Spans(st)) && ValidStack(Spans(st), lo, hi)
    && FramesAlike(b, s, st) && Limited(st, hi - lo + 1) && |st| <= MAX_FRAMES && |rank| == |b|
  }

  /** Pieces of a frame that may take its place on the stack. */
  ghost predicate Pieces(b: seq<Byte>, t: seq<int>, p: Frame, parts: seq<Frame>, total: int, slot: nat) {
    && (forall k :: 0 <= k < |parts| ==> p.span.lo <= parts[k].span.lo <= parts[k].span.hi + 1 <= p.span.hi + 1)
    && (forall k, l :: 0 <= k < l < |parts| ==> Apart(parts[k].span, parts[l].span))
    && (forall k :: 0 <= k < |parts| ==> parts[k].span.Size() <= Limit(total, slot + k))
    && FramesAlike(b, t, parts) && slot + |parts| <= MAX_FRAMES
  }

  lemma SpansJoin(rest: seq<Frame>, parts: seq<Frame>)
    ensures Spans(rest + parts) == Spans(rest) + Spans(parts)
  {
  }

  lemma ValidJoin(rest: seq<Frame>, p: Frame, parts: seq<Frame>, lo: int, hi: int, b: seq<Byte>, t: seq<int>,
      total: int)
    requires ValidStack(Spans(rest) + [p.span], lo, hi) && Pieces(b, t, p, parts, total, |rest|)
    ensures ValidStack(Spans(rest) + Spans(parts), lo, hi)
  {
    hide Alike, Limit;
    var st := Spans(rest) + Spans(parts);
    ValidRest(Spans(rest), p.span, lo, hi);
    forall k, l | 0 <= k < l < |st| ensures Apart(st[k], st[l]) {
      if l < |rest| {
        assert Apart(Spans(rest)[k], Spans(rest)[l]);
      } else if k < |rest| {
        assert Apart(Spans(rest)[k], p.span);
        assert st[l] == parts[l - |rest|].span;
      } else {
        assert Apart(parts[k - |rest|].span, parts[l - |rest|].span);
      }
    }
    forall k | 0 <= k < |st| ensures lo <= st[k].lo <= st[k].hi + 1 <= hi + 1 {
      if k >= |rest| {
        assert st[k] == parts[k - |rest|].span;
      }
    }
  }

  lemma AlikeJoin(b: seq<Byte>, s: seq<int>, t: seq<int>, rest: seq<Frame>, p: Frame, parts: seq<Frame>, lo: int,
      hi: int)
    requires FramesAlike(b, s, rest + [p]) && FramesAlike(b, t, parts) && Permuted(s, t, p.span.lo, p.span.hi)
      && InRange(t, |b|)
    requires ValidStack(Spans(rest) + [p.span], lo, hi)
    ensures FramesAlike(b, t, rest + parts)
  {
    hide Alike, Permuted;
    ValidRest(Spans(rest), p.span, lo, hi);
    var st := rest + parts;
    forall k | 0 <= k < |st| ensures st[k].d <= MAX_D && Alike(b, t, st[k].span.lo, st[k].span.hi, st[k].d) {
      if k < |rest| {
        assert (rest + [p])[k] == rest[k];
        assert Apart(Spans(rest)[k], p.span);
        AlikeElsewhere(b, s, t, p.span, rest[k].span.lo, rest[k].span.hi, rest[k].d);
      } else {
        assert st[k] == parts[k - |rest|];
      }
    }
  }

  lemma LimitJoin(b: seq<Byte>, t: seq<int>, rest: seq<Frame>, p: Frame, parts: seq<Frame>, total: int)
    requires Limited(rest + [p], total) && Pieces(b, t, p, parts, total, |rest|)
    ensures Limited(rest + parts, total)
  {
    hide Alike, Limit;
    var st := rest + parts;
    forall k | 0 <= k < |st| ensures st[k].span.Size() <= Limit(total, k) {
      if k < |rest| {
        assert (rest + [p])[k] == rest[k];
      } else {
        assert st[k] == parts[k - |rest|];
        assert |rest| + (k - |rest|) == k;
      }
    }
  }

  /** A frame is replaced by pieces of it. */
  lemma FrameReplaced(b: seq<Byte>, rank: seq<int>, start: seq<int>, s: seq<int>, t: seq<int>, lo: int, hi: int,
      rest: seq<Frame>, p: Frame, parts: seq<Frame>)
    requires Waiting(b, rank, start, s, lo, hi, rest + [p]) && Permuted(s, t, p.span.lo, p.span.hi) && InRange(t, |b|)
    requires SortedExcept(rank, t, p.span.lo, p.span.hi, Spans(parts)) && Pieces(b, t, p, parts, hi - lo + 1, |rest|)
    ensures Waiting(b, rank, start, t, lo, hi, rest + parts)
  {
    hide Permuted, SortedExcept, ValidStack, FramesAlike, Limited, Pieces;
    SpansJoin(rest, [p]);
    assert Spans([p]) == [p.span];
    SpansJoin(rest, parts);
    Replaced(rank, s, t, lo, hi, Spans(rest), p.span, Spans(parts));
    ValidJoin(rest, p, parts, lo, hi, b, t, hi - lo + 1);
    PiecesAlike(b, t, p, parts, hi - lo + 1, |rest|);
    AlikeJoin(b, s, t, rest, p, parts, lo, hi);
    LimitJoin(b, t, rest, p, parts, hi - lo + 1);
    RangeInside(Spans(rest), p.span, lo, hi);
    PermutedWiden(s, t, p.span.lo, p.span.hi, lo, hi);
    PermutedTrans(start, s, t, lo, hi);
  }

  lemma PiecesAlike(b: seq<Byte>, t: seq<int>, p: Frame, parts: seq<Frame>, total: int, slot: nat)
    requires Pieces(b, t, p, parts, total, slot)
    ensures FramesAlike(b, t, parts) && slot + |parts| <= MAX_FRAMES
  {
  }

  // ----- how deep the stack gets -------------------------------------------

  lemma {:induction false} LimitHalves(total: nat, j: nat)
    ensures 0 <= Limit(total, 2 * j) && Limit(total, 2 * j) * Pow2(j) <= total
  {
    if j > 0 {
      LimitHalves(total, j - 1);
      var l := Limit(total, 2 * (j - 1));
      assert Limit(total, 2 * j) == 2 * (2 * l / 3) / 3;
      assert 2 * Limit(total, 2 * j) <= l;
      HalfAgain(Limit(total, 2 * j), l, Pow2(j - 1), total);
    }
  }

  lemma HalfAgain(x: nat, l: nat, p: nat, total: nat)
    requires 2 * x <= l && l * p <= total
    ensures x * (2 * p) <= total
  {
    assert (2 * x) * p <= l * p;
  }

  lemma {:induction false} LimitFalls(total: nat, j: nat, k: nat)
    requires j <= k
    ensures 0 <= Limit(total, k) <= Limit(total, j)
    decreases k
  {
    if j < k {
      LimitFalls(total, j, k - 1);
    } else if k > 0 {
      LimitFalls(total, k - 1, k - 1);
    }
  }

  /** A frame long enough to split sits low on the stack. */
  lemma FrameShallow(rest: seq<Frame>, p: Frame, total: nat)
    requires Limited(rest + [p], total) && p.span.Size() > MAIN_QSORT_SMALL_THRESH && total <= INT_RANGE
    ensures |rest| + 3 <= MAX_FRAMES
  {
    assert (rest + [p])[|rest|] == p;
    if |rest| > 54 {
      LimitFalls(total, 54, |rest|);
      LimitHalves(total, 27);
      Pow2At27();
    }
  }

  lemma Pow2At27()
    ensures Pow2(27) == 0x800_0000
  {
    assert Pow2(13) == 0x2000 && Pow2(14) == 0x4000;
    Pow2Add(13, 14);
  }

  // ----- dividing one frame ------------------------------------------------

  /** What is left to do on a frame. */
  function Weight(f: Frame): int {
    1 + 3 * f.span.Size() * (MAX_D + 1 - f.d)
  }

  ghost function Remaining(st: seq<Frame>): int {
    if st == [] then 0 else Remaining(st[..|st| - 1]) + Weight(st[|st| - 1])
  }

  lemma RemainingMore(st: seq<Frame>, f: Frame)
    ensures Remaining(st + [f]) == Remaining(st) + Weight(f)
  {
    assert (st + [f])[..|st|] == st;
  }

  lemma {:induction false} RemainingNotNegative(st: seq<Frame>)
    requires forall k :: 0 <= k < |st| ==> st[k].span.Size() >= 0 && st[k].d <= MAX_D
    ensures Remaining(st) >= 0
  {
    if st != [] {
      RemainingNotNegative(st[..|st| - 1]);
      NotNegativeProduct(st[|st| - 1].span.Size(), MAX_D + 1 - st[|st| - 1].d);
    }
  }

  lemma NotNegativeProduct(a: int, b: int)
    requires a >= 0 && b >= 0
    ensures 3 * a * b >= 0
  {
  }

  /** Three pieces of p, in whatever order, that it may be replaced by. */
  ghost predicate Three(b: seq<Byte>, rank: seq<int>, t: seq<int>, p: Frame, f: Frame, g: Frame, h: Frame) {
    && SortedExcept(rank, t, p.span.lo, p.span.hi, [f.span, g.span, h.span])
    && Piece(b, t, p, f) && Piece(b, t, p, g) && Piece(b, t, p, h)
    && Apart(f.span, g.span) && Apart(f.span, h.span) && Apart(g.span, h.span)
    && f.span.Size() + g.span.Size() + h.span.Size() == p.span.Size()
    && Weight(f) + Weight(g) + Weight(h) < Weight(p)
  }

  ghost predicate Piece(b: seq<Byte>, t: seq<int>, p: Frame, f: Frame) {
    p.span.lo <= f.span.lo <= f.span.hi + 1 <= p.span.hi + 1 && f.d <= MAX_D && Alike(b, t, f.span.lo, f.span.hi, f.d)
  }

  lemma CoveredAnyOrder(f: Span, g: Span, h: Span, a: int, c: int)
    ensures Covered([f, g, h], a, c) <==>
      (f.lo <= a && c <= f.hi) || (g.lo <= a && c <= g.hi) || (h.lo <= a && c <= h.hi)
  {
    var st := [f, g, h];
    assert st[0] == f && st[1] == g && st[2] == h;
  }

  lemma ThreeSwap(b: seq<Byte>, rank: seq<int>, t: seq<int>, p: Frame, f: Frame, g: Frame, h: Frame)
    requires Three(b, rank, t, p, f, g, h)
    ensures Three(b, rank, t, p, g, f, h) && Three(b, rank, t, p, f, h, g)
  {
    hide Piece, Weight;
    forall a, c | p.span.lo <= a < c <= p.span.hi
      ensures Ord(rank, t, a, c) || (Covered([g.span, f.span, h.span], a, c) && Covered([f.span, h.span, g.span], a, c))
    {
      CoveredAnyOrder(f.span, g.span, h.span, a, c);
      CoveredAnyOrder(g.span, f.span, h.span, a, c);
      CoveredAnyOrder(f.span, h.span, g.span, a, c);
    }
  }

  /** The three pieces with the largest first, so that the smallest is sorted
      first. */
  method LargestFirst(f0: Frame, g0: Frame, h0: Frame, ghost b: seq<Byte>, ghost rank: seq<int>, ghost t: seq<int>,
      ghost p: Frame) returns (f: Frame, g: Frame, h: Frame)
    requires Three(b, rank, t, p, f0, g0, h0)
    ensures Three(b, rank, t, p, f, g, h) && f.span.Size() >= g.span.Size() >= h.span.Size()
  {
    hide Three;
    f, g, h := f0, g0, h0;
    ThreeSwap(b, rank, t, p, f, g, h);
    if f.span.Size() < g.span.Size() {
      f, g := g, f;
    }
    ThreeSwap(b, rank, t, p, f, g, h);
    if g.span.Size() < h.span.Size() {
      g, h := h, g;
    }
    ThreeSwap(b, rank, t, p, f, g, h);
    if f.span.Size() < g.span.Size() {
      f, g := g, f;
    }
  }

  /** The smaller pieces go into higher slots, which hold less. */
  lemma ThreeLimited(b: seq<Byte>, rank: seq<int>, t: seq<int>, p: Frame, f: Frame, g: Frame, h: Frame, total: int,
      slot: nat)
    requires Three(b, rank, t, p, f, g, h) && f.span.Size() >= g.span.Size() >= h.span.Size()
    requires p.span.Size() <= Limit(total, slot) && slot + 3 <= MAX_FRAMES
    ensures Pieces(b, t, p, [f, g, h], total, slot)
  {
    hide Alike, Weight, SortedExcept;
    NextLimits(total, slot);
    hide Limit;
    Thirds(f.span.Size(), g.span.Size(), h.span.Size(), Limit(total, slot));
    var parts := [f, g, h];
    assert parts[0].span.Size() <= Limit(total, slot + 0);
    assert parts[1].span.Size() <= Limit(total, slot + 1);
    assert parts[2].span.Size() <= Limit(total, slot + 2);
  }

  lemma NextLimits(total: int, slot: nat)
    ensures Limit(total, slot + 1) == 2 * Limit(total, slot) / 3
      && Limit(total, slot + 2) == 2 * (2 * Limit(total, slot) / 3) / 3
  {
  }

  lemma Thirds(f: int, g: int, h: int, l: int)
    requires f >= g >= h >= 0 && f + g + h <= l
    ensures f <= l && g <= 2 * l / 3 && h <= 2 * (2 * l / 3) / 3
  {
  }

  /** mmed3 */
  function Median(a: Byte, b: Byte, c: Byte): (m: Byte)
    ensures m == a || m == b || m == c
    ensures (m <= a || m <= b) && (m <= a || m <= c) && (m <= b || m <= c)
    ensures (m >= a || m >= b) && (m >= a || m >= c) && (m >= b || m >= c)
  {
    var lo, hi := if a > b then b else a, if a > b then a else b;
    if hi > c then (if lo > c then lo else c) else hi
  }

  lemma KeysInRange(block: seq<Byte>, b: seq<Byte>, s: seq<int>, d: nat)
    requires Continued(block, b) && d <= MAX_D && InRange(s, |b|)
    ensures InRange(s, |Keys(block, d)|)
  {
  }

  lemma StillInRange(s: seq<int>, t: seq<int>, lo: nat, hi: nat, n: nat)
    requires Permuted(s, t, lo, hi) && InRange(s, n) && hi < |s|
    ensures InRange(t, n)
  {
    forall i | 0 <= i < |t| ensures 0 <= t[i] < n {
      if lo <= i <= hi {
        PermutedMember(s, t, lo, hi, i);
      } else {
        assert t[i] == s[i];
      }
    }
  }

  /** All entries have the same byte at depth d: one level deeper. */
  lemma Deeper(block: seq<Byte>, b: seq<Byte>, rank: seq<int>, t: seq<int>, p: Frame, med: int)
    requires Continued(block, b) && p.d < MAX_D && Ranked(b, rank) && Alike(b, t, p.span.lo, p.span.hi, p.d)
      && p.span.Size() > 0
    requires AllEqual(Keys(block, p.d), t, p.span.lo, p.span.hi, med)
    ensures var f := Frame(p.span, p.d + 1);
      Piece(b, t, p, f) && Weight(f) < Weight(p) && SortedExcept(rank, t, p.span.lo, p.span.hi, [f.span])
  {
    hide Same, Ranked;
    RankLength(b, rank);
    forall a, c | p.span.lo <= a <= p.span.hi && p.span.lo <= c <= p.span.hi ensures Same(b, t[a], t[c], p.d + 1) {
      KeysAre(block, b, p.d, t[a]);
      KeysAre(block, b, p.d, t[c]);
      ByKey(b, rank, t[a], t[c], p.d);
    }
    forall a, c | p.span.lo <= a < c <= p.span.hi ensures Covered([p.span], a, c) {
      assert [p.span][0].lo <= a;
    }
    Lighter(p.span.Size(), MAX_D + 1 - p.d);
  }

  lemma Lighter(size: int, k: int)
    requires size > 0
    ensures 3 * size * (k - 1) < 3 * size * k
  {
  }

  /** Three parts by the byte at depth d, the middle one level deeper. */
  lemma InThree(block: seq<Byte>, b: seq<Byte>, rank: seq<int>, t: seq<int>, p: Frame, med: int, n: int, m: int)
    requires Continued(block, b) && p.d < MAX_D && Ranked(b, rank) && Alike(b, t, p.span.lo, p.span.hi, p.d)
    requires Parted(Keys(block, p.d), t, p.span.lo, p.span.hi, med, n, m) && 0 <= p.span.lo && p.span.lo - 1 <= n
      && n + 1 < m <= p.span.hi + 1
    ensures Three(b, rank, t, p, Frame(Span(p.span.lo, n), p.d), Frame(Span(m, p.span.hi), p.d), Frame(Span(n + 1, m - 1), p.d + 1))
  {
    hide Parted, Alike, SortedExcept, Ranked;
    KeyParted(block, b, rank, t, p.span.lo, p.span.hi, p.d, med, n, m);
    Divided(n - p.span.lo + 1, p.span.hi - m + 1, m - n - 1, MAX_D + 1 - p.d);
  }

  lemma Divided(x: int, y: int, z: int, k: int)
    requires x >= 0 && y >= 0 && z > 0
    ensures 1 + 3 * x * k + (1 + 3 * y * k) + (1 + 3 * z * (k - 1)) < 1 + 3 * (x + y + z) * k
  {
  }

  lemma KeyHere(c: Context, b: seq<Byte>, s: seq<int>, p: Frame, a: nat)
    requires c.Fits(b) && p.d < MAX_D && Alike(b, s, p.span.lo, p.span.hi, p.d) && p.span.lo <= a <= p.span.hi
    ensures p.d <= |c.block| && a < |s| && 0 <= s[a] < |Keys(c.block, p.d)| && 0 <= Keys(c.block, p.d)[s[a]] < 256
  {
    KeysInRange(c.block, b, s, p.d);
  }

  /** The byte to partition by, and an entry that has it. */
  method Pivot(ptr: array<int>, c: Context, ghost b: seq<Byte>, p: Frame) returns (med: int, ghost x: nat)
    requires c.Fits(b) && p.d < MAX_D && p.span.lo <= p.span.hi < ptr.Length
      && Alike(b, ptr[..], p.span.lo, p.span.hi, p.d)
    ensures p.span.lo <= x <= p.span.hi && p.d <= |c.block| && 0 <= ptr[x] < |Keys(c.block, p.d)|
      && med == Keys(c.block, p.d)[ptr[x]]
  {
    var lo, hi, mid := p.span.lo, p.span.hi, (p.span.lo + p.span.hi) / 2;
    KeyHere(c, b, ptr[..], p, lo);
    KeyHere(c, b, ptr[..], p, hi);
    KeyHere(c, b, ptr[..], p, mid);
    hide Alike, Context.Fits;
    var e := Keys(c.block, p.d);
    med := Median(e[ptr[lo]], e[ptr[hi]], e[ptr[mid]]);
    x := if med == e[ptr[lo]] then lo else if med == e[ptr[hi]] then hi else mid;
  }

  method PartitionFrame(ptr: array<int>, c: Context, ghost b: seq<Byte>, p: Frame)
      returns (n: int, m: int, allEqual: bool, ghost med: int)
    requires c.Fits(b) && p.d < MAX_D && 0 <= p.span.lo <= p.span.hi < ptr.Length
      && Alike(b, ptr[..], p.span.lo, p.span.hi, p.d)
    modifies ptr
    ensures Permuted(old(ptr[..]), ptr[..], p.span.lo, p.span.hi) && InRange(ptr[..], |b|)
      && Alike(b, ptr[..], p.span.lo, p.span.hi, p.d)
    ensures p.d <= |c.block|
    ensures allEqual ==> AllEqual(Keys(c.block, p.d), ptr[..], p.span.lo, p.span.hi, med)
    ensures !allEqual ==>
      && Parted(Keys(c.block, p.d), ptr[..], p.span.lo, p.span.hi, med, n, m)
      && p.span.lo - 1 <= n && n + 1 < m <= p.span.hi + 1
  {
    hide Permuted, Alike, Parted, AllEqual, InRange, Context.Fits;
    var lo, hi, d := p.span.lo, p.span.hi, p.d;
    ghost var s, x := ptr[..], 0;
    var pivot;
    pivot, x := Pivot(ptr, c, b, p);
    med := pivot;
    var e := Keys(c.block, d);
    SplitFacts(c, b, s, p);
    n, m, allEqual := Partition(ptr, e, lo, hi, pivot);
    StillInRange(s, ptr[..], lo, hi, |b|);
    AlikePermuted(b, s, ptr[..], lo, hi, d);
    if !allEqual {
      MiddleNotEmpty(e, s, ptr[..], lo, hi, x, n, m);
      PartedBounds(e, ptr[..], lo, hi, pivot, n, m);
    }
  }

  /** Partition a long frame around the median of three bytes. */
  method SplitFrame(ptr: array<int>, c: Context, ghost b: seq<Byte>, ghost rank: seq<int>, p: Frame)
      returns (parts: seq<Frame>)
    requires c.Fits(b) && Ranked(b, rank) && p.d < MAX_D && p.span.hi - p.span.lo >= MAIN_QSORT_SMALL_THRESH
    requires 0 <= p.span.lo && p.span.hi < ptr.Length && Alike(b, ptr[..], p.span.lo, p.span.hi, p.d)
    modifies ptr
    ensures Permuted(old(ptr[..]), ptr[..], p.span.lo, p.span.hi) && InRange(ptr[..], |b|)
    ensures |parts| == 1 || |parts| == 3
    ensures |parts| == 1 ==>
      && Piece(b, ptr[..], p, parts[0]) && parts[0].span == p.span && Weight(parts[0]) < Weight(p)
      && SortedExcept(rank, ptr[..], p.span.lo, p.span.hi, [p.span])
    ensures |parts| == 3 ==>
      && Three(b, rank, ptr[..], p, parts[0], parts[1], parts[2])
      && parts[0].span.Size() >= parts[1].span.Size() >= parts[2].span.Size()
  {
    hide Permuted, Alike, Parted, AllEqual, Three, Piece, Ranked, SortedExcept, InRange, Weight, Context.Fits;
    var lo, hi, d := p.span.lo, p.span.hi, p.d;
    FitsContinued(c, b);
    var n, m, allEqual, med := PartitionFrame(ptr, c, b, p);
    if allEqual {
      Deeper(c.block, b, rank, ptr[..], p, med);
      parts := [Frame(p.span, d + 1)];
    } else {
      InThree(c.block, b, rank, ptr[..], p, med, n, m);
      var f, g, h := LargestFirst(Frame(Span(lo, n), d), Frame(Span(m, hi), d), Frame(Span(n + 1, m - 1), d + 1), b,
        rank, ptr[..], p);
      parts := [f, g, h];
    }
  }

  lemma FitsContinued(c: Context, b: seq<Byte>)
    requires c.Fits(b)
    ensures Continued(c.block, b) && b != []
  {
  }

  lemma PartedBounds(e: seq<int>, t: seq<int>, lo: int, hi: int, med: int, n: int, m: int)
    requires Parted(e, t, lo, hi, med, n, m)
    ensures lo - 1 <= n && m <= hi + 1
  {
  }

  lemma SplitFacts(c: Context, b: seq<Byte>, s: seq<int>, p: Frame)
    requires c.Fits(b) && p.d < MAX_D && Alike(b, s, p.span.lo, p.span.hi, p.d)
    ensures p.d <= |c.block| && InRange(s, |b|) && InRange(s, |Keys(c.block, p.d)|)
  {
    KeysInRange(c.block, b, s, p.d);
  }

  // ----- the whole sort ----------------------------------------------------

  ghost predicate OnStack(stackLo: seq<int>, stackHi: seq<int>, stackD: seq<int>, st: seq<Frame>) {
    && |st| <= |stackLo| == |stackHi| == |stackD|
    && forall k :: 0 <= k < |st| ==> stackLo[k] == st[k].span.lo && stackHi[k] == st[k].span.hi && stackD[k] == st[k].d
  }

  /** mpush */
  method PushFrame(stackLo: array<int>, stackHi: array<int>, stackD: array<int>, sp: nat, f: Frame,
      ghost st: seq<Frame>)
    requires stackLo != stackHi && stackLo != stackD && stackHi != stackD && sp == |st| < stackLo.Length
    requires OnStack(stackLo[..], stackHi[..], stackD[..], st)
    modifies stackLo, stackHi, stackD
    ensures OnStack(stackLo[..], stackHi[..], stackD[..], st + [f])
  {
    stackLo[sp], stackHi[sp], stackD[sp] := f.span.lo, f.span.hi, f.d;
  }

  method PushFrames(stackLo: array<int>, stackHi: array<int>, stackD: array<int>, sp0: nat, parts: seq<Frame>,
      ghost rest: seq<Frame>) returns (sp: nat)
    requires stackLo != stackHi && stackLo != stackD && stackHi != stackD && sp0 == |rest|
      && sp0 + |parts| <= stackLo.Length
    requires OnStack(stackLo[..], stackHi[..], stackD[..], rest)
    modifies stackLo, stackHi, stackD
    ensures sp == sp0 + |parts| && OnStack(stackLo[..], stackHi[..], stackD[..], rest + parts)
  {
    sp := sp0;
    assert rest + [] == rest;
    hide OnStack;
    for k := 0 to |parts|
      invariant sp == sp0 + k && OnStack(stackLo[..], stackHi[..], stackD[..], rest + parts[..k])
    {
      PushFrame(stackLo, stackHi, stackD, sp, parts[k], rest + parts[..k]);
      assert rest + parts[..k] + [parts[k]] == rest + parts[..k + 1];
      sp := sp + 1;
    }
    assert parts[..|parts|] == parts;
  }

  lemma TopFrame(stackLo: seq<int>, stackHi: seq<int>, stackD: seq<int>, st: seq<Frame>)
    requires OnStack(stackLo, stackHi, stackD, st) && st != []
    ensures |st| - 1 < |stackLo| == |stackHi| == |stackD| && stackD[|st| - 1] >= 0
    ensures var n := |st| - 1;
      st == st[..n] + [Frame(Span(stackLo[n], stackHi[n]), stackD[n])] && OnStack(stackLo, stackHi, stackD, st[..n])
  {
  }

  lemma WaitingFacts(b: seq<Byte>, rank: seq<int>, start: seq<int>, s: seq<int>, lo: int, hi: int, rest: seq<Frame>,
      p: Frame)
    requires Waiting(b, rank, start, s, lo, hi, rest + [p])
    ensures 0 <= lo <= p.span.lo <= p.span.hi + 1 <= hi + 1 <= |s| && p.d <= MAX_D
      && Alike(b, s, p.span.lo, p.span.hi, p.d)
    ensures Limited(rest + [p], hi - lo + 1) && p.span.Size() <= Limit(hi - lo + 1, |rest|) && |rest| < MAX_FRAMES
  {
    assert (rest + [p])[|rest|] == p && Spans(rest + [p])[|rest|] == p.span;
  }

  lemma FrameFinished(b: seq<Byte>, rank: seq<int>, start: seq<int>, s: seq<int>, t: seq<int>, lo: int, hi: int,
      rest: seq<Frame>, p: Frame)
    requires Waiting(b, rank, start, s, lo, hi, rest + [p]) && Permuted(s, t, p.span.lo, p.span.hi) && InRange(t, |b|)
    requires |rank| == |b| && 0 <= p.span.lo && p.span.hi < |t| && SortedRange(rank, t, p.span.lo, p.span.hi)
    ensures Waiting(b, rank, start, t, lo, hi, rest + []) && Remaining(rest + []) < Remaining(rest + [p])
  {
    hide Waiting, Permuted, Alike, Limit;
    WaitingFacts(b, rank, start, s, lo, hi, rest, p);
    assert SortedExcept(rank, t, p.span.lo, p.span.hi, Spans([]));
    assert Pieces(b, t, p, [], hi - lo + 1, |rest|);
    FrameReplaced(b, rank, start, s, t, lo, hi, rest, p, []);
    assert rest + [] == rest;
    RemainingMore(rest, p);
    NotNegativeProduct(p.span.Size(), MAX_D + 1 - p.d);
  }

  lemma FrameDeeper(b: seq<Byte>, rank: seq<int>, start: seq<int>, s: seq<int>, t: seq<int>, lo: int, hi: int,
      rest: seq<Frame>, p: Frame, f: Frame)
    requires Waiting(b, rank, start, s, lo, hi, rest + [p]) && Permuted(s, t, p.span.lo, p.span.hi) && InRange(t, |b|)
    requires Piece(b, t, p, f) && f.span == p.span && Weight(f) < Weight(p)
      && SortedExcept(rank, t, p.span.lo, p.span.hi, [p.span])
    ensures Waiting(b, rank, start, t, lo, hi, rest + [f]) && Remaining(rest + [f]) < Remaining(rest + [p])
  {
    hide Waiting, Permuted, Alike, Limit, SortedExcept, Weight;
    WaitingFacts(b, rank, start, s, lo, hi, rest, p);
    assert Spans([f]) == [p.span];
    assert Pieces(b, t, p, [f], hi - lo + 1, |rest|) by {
      assert [f][0] == f && |rest| + 0 == |rest|;
    }
    FrameReplaced(b, rank, start, s, t, lo, hi, rest, p, [f]);
    RemainingMore(rest, p);
    RemainingMore(rest, f);
  }

  lemma FrameSplit(b: seq<Byte>, rank: seq<int>, start: seq<int>, s: seq<int>, t: seq<int>, lo: int, hi: int,
      rest: seq<Frame>, p: Frame, f: Frame, g: Frame, h: Frame)
    requires Waiting(b, rank, start, s, lo, hi, rest + [p]) && Permuted(s, t, p.span.lo, p.span.hi) && InRange(t, |b|)
    requires Three(b, rank, t, p, f, g, h) && f.span.Size() >= g.span.Size() >= h.span.Size()
    requires p.span.Size() > MAIN_QSORT_SMALL_THRESH && hi - lo + 1 <= INT_RANGE
    ensures Waiting(b, rank, start, t, lo, hi, rest + [f, g, h]) && Remaining(rest + [f, g, h]) < Remaining(rest + [p])
  {
    hide Waiting, Permuted, Alike, Limit, Weight, Pieces, Limited, Piece, SortedExcept;
    WaitingFacts(b, rank, start, s, lo, hi, rest, p);
    FrameShallow(rest, p, hi - lo + 1);
    ThreeLimited(b, rank, t, p, f, g, h, hi - lo + 1, |rest|);
    assert Spans([f, g, h]) == [f.span, g.span, h.span];
    FrameReplaced(b, rank, start, s, t, lo, hi, rest, p, [f, g, h]);
    RemainingMore(rest, p);
    RemainingMore(rest, f);
    RemainingMore(rest + [f], g);
    RemainingMore(rest + [f] + [g], h);
    assert rest + [f, g, h] == rest + [f] + [g] + [h];
  }

  /** One turn of the loop; `abandoned` when the budget is used up. */
  method TurnFrame(ptr: array<int>, c: Context, ghost b: seq<Byte>, ghost rank: seq<int>, ghost start: seq<int>,
      ghost lo: nat, ghost hi: nat, ghost rest: seq<Frame>, p: Frame, budget0: int)
    returns (parts: seq<Frame>, budget: int, abandoned: bool)
    requires c.Fits(b) && Ranked(b, rank) && hi < ptr.Length && hi - lo + 1 <= INCS[13]
    requires Waiting(b, rank, start, ptr[..], lo, hi, rest + [p])
    modifies ptr
    ensures abandoned ==> budget < 0 && Permuted(start, ptr[..], lo, hi) && InRange(ptr[..], |b|)
    ensures !abandoned ==>
      Waiting(b, rank, start, ptr[..], lo, hi, rest + parts) && Remaining(rest + parts) < Remaining(rest + [p])
    ensures p.span.hi == p.span.lo + 1 ==> parts == [] && budget >= budget0 - Cost(|b|)
  {
    hide Cost, Waiting, Permuted, Alike, Ranked, Context.Fits, Three, Piece, SortedExcept, SortedRange, InRange, Weight,
      Limited, Limit;
    ghost var s := ptr[..];
    WaitingFacts(b, rank, start, s, lo, hi, rest, p);
    if p.span.hi - p.span.lo < MAIN_QSORT_SMALL_THRESH || p.d > MAIN_QSORT_DEPTH_THRESH {
      AlikeAgree(b, s, p.span.lo, p.span.hi, p.d);
      budget := MainSimpleSort.SimpleSort(ptr, c, b, rank, if p.span.lo <= p.span.hi then s[p.span.lo] else 0,
        p.span.lo, p.span.hi, p.d, budget0);
      abandoned := budget < 0;
      parts := [];
      if abandoned {
        StillPermuted(b, rank, start, s, ptr[..], lo, hi, rest, p);
      } else {
        FrameFinished(b, rank, start, s, ptr[..], lo, hi, rest, p);
      }
      return;
    }
    budget, abandoned := budget0, false;
    parts := SplitFrame(ptr, c, b, rank, p);
    if |parts| == 1 {
      FrameDeeper(b, rank, start, s, ptr[..], lo, hi, rest, p, parts[0]);
      assert parts == [parts[0]];
    } else {
      FrameSplit(b, rank, start, s, ptr[..], lo, hi, rest, p, parts[0], parts[1], parts[2]);
      assert parts == [parts[0], parts[1], parts[2]];
    }
  }

  lemma StillPermuted(b: seq<Byte>, rank: seq<int>, start: seq<int>, s: seq<int>, t: seq<int>, lo: int, hi: int,
      rest: seq<Frame>, p: Frame)
    requires Waiting(b, rank, start, s, lo, hi, rest + [p]) && Permuted(s, t, p.span.lo, p.span.hi)
    ensures Permuted(start, t, lo, hi)
  {
    hide Permuted;
    WaitingFacts(b, rank, start, s, lo, hi, rest, p);
    PermutedWiden(s, t, p.span.lo, p.span.hi, lo, hi);
    PermutedTrans(start, s, t, lo, hi);
  }

  lemma WaitingBegins(b: seq<Byte>, rank: seq<int>, s: seq<int>, lo: nat, hi: nat, d: nat)
    requires Ranked(b, rank) && lo <= hi < |s| && Alike(b, s, lo, hi, d) && d <= MAX_D
    ensures Waiting(b, rank, s, s, lo, hi, [Frame(Span(lo, hi), d)])
  {
    hide Alike;
    var st := Spans([Frame(Span(lo, hi), d)]);
    RankLength(b, rank);
    AlikeInRange(b, s, lo, hi, d);
    forall a, c | lo <= a < c <= hi ensures Covered(st, a, c) {
      assert st[0].lo <= a;
    }
  }

  lemma AlikeInRange(b: seq<Byte>, s: seq<int>, lo: int, hi: int, d: nat)
    requires Alike(b, s, lo, hi, d)
    ensures InRange(s, |b|)
  {
  }

  lemma WaitingEnds(b: seq<Byte>, rank: seq<int>, start: seq<int>, s: seq<int>, lo: int, hi: int)
    requires Waiting(b, rank, start, s, lo, hi, [])
    ensures Permuted(start, s, lo, hi) && |rank| == |b| && InRange(s, |b|) && 0 <= lo && hi < |s|
      && SortedRange(rank, s, lo, hi)
  {
    forall a, c | lo <= a < c <= hi ensures Ord(rank, s, a, c) {
      assert Ord(rank, s, a, c) || Covered(Spans([]), a, c);
    }
  }

  lemma WaitingDepth(b: seq<Byte>, rank: seq<int>, start: seq<int>, s: seq<int>, lo: int, hi: int, st: seq<Frame>)
    requires Waiting(b, rank, start, s, lo, hi, st)
    ensures |st| <= MAX_FRAMES && Remaining(st) >= 0
  {
    forall k | 0 <= k < |st| ensures st[k].span.Size() >= 0 && st[k].d <= MAX_D {
      assert Spans(st)[k] == st[k].span;
    }
    RemainingNotNegative(st);
  }

  /** mainQSort3: always a rearrangement of the range; in order if the budget
      lasts. No depth exceeds 15, and the stack of 100 slots never overflows. */
  method QSort3(ptr: array<int>, c: Context, ghost b: seq<Byte>, ghost rank: seq<int>, loSt: nat, hiSt: nat, dSt: nat,
      budget0: int) returns (budget: int)
    requires c.Fits(b) && Ranked(b, rank) && dSt <= MAX_D && loSt <= hiSt < ptr.Length && hiSt - loSt + 1 <= INCS[13]
    requires Alike(b, ptr[..], loSt, hiSt, dSt)
    modifies ptr
    ensures Permuted(old(ptr[..]), ptr[..], loSt, hiSt) && InRange(ptr[..], |b|) && |rank| == |b|
    ensures budget >= 0 ==> SortedRange(rank, ptr[..], loSt, hiSt)
    ensures hiSt == loSt + 1 ==> budget >= budget0 - Cost(|b|)
  {
    hide Cost, Waiting, Permuted, Alike, Ranked, Context.Fits, SortedRange, InRange, OnStack;
    ghost var start := ptr[..];
    var stackLo, stackHi, stackD :=
      new int[MAIN_QSORT_STACK_SIZE], new int[MAIN_QSORT_STACK_SIZE], new int[MAIN_QSORT_STACK_SIZE];
    ghost var st: seq<Frame> := [Frame(Span(loSt, hiSt), dSt)];
    RankLength(b, rank);
    EmptyStack(stackLo[..], stackHi[..], stackD[..]);
    PushFrame(stackLo, stackHi, stackD, 0, Frame(Span(loSt, hiSt), dSt), []);
    assert [] + st == st;
    WaitingBegins(b, rank, start, loSt, hiSt, dSt);
    var sp := 1;
    budget := budget0;
    while sp > 0
      invariant sp == |st| && OnStack(stackLo[..], stackHi[..], stackD[..], st)
      invariant Waiting(b, rank, start, ptr[..], loSt, hiSt, st)
      invariant hiSt == loSt + 1 ==>
        if st == [] then budget >= budget0 - Cost(|b|) else st == [Frame(Span(loSt, hiSt), dSt)] && budget == budget0
      decreases Remaining(st)
    {
      WaitingDepth(b, rank, start, ptr[..], loSt, hiSt, st);
      assert sp < MAIN_QSORT_STACK_SIZE - 2;  // AssertH 1001
      sp := sp - 1;
      TopFrame(stackLo[..], stackHi[..], stackD[..], st);
      var p := Frame(Span(stackLo[sp], stackHi[sp]), stackD[sp]);
      ghost var rest := st[..sp];
      var parts, abandoned;
      parts, budget, abandoned := TurnFrame(ptr, c, b, rank, start, loSt, hiSt, rest, p, budget);
      if abandoned {
        return;
      }
      st := rest + parts;
      WaitingDepth(b, rank, start, ptr[..], loSt, hiSt, st);
      sp := PushFrames(stackLo, stackHi, stackD, sp, parts, rest);
    }
    WaitingEnds(b, rank, start, ptr[..], loSt, hiSt);
  }

  lemma EmptyStack(stackLo: seq<int>, stackHi: seq<int>, stackD: seq<int>)
    requires |stackLo| == |stackHi| == |stackD|
    ensures OnStack(stackLo, stackHi, stackD, [])
  {
  }
}
