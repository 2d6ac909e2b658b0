/** The shell sort of the main sort. Rotations are compared by mainGtU; the
    order they should come in is given by a rank for every rotation. */
module MainSimpleSort {
  import opened Permutations
  import opened Sizes
  import opened Rotations
  import opened FallbackQSort
  import opened MainCompare

  /** Ranks that mirror the order of the rotations. */
  ghost predicate Ranked(b: seq<Byte>, rank: seq<int>) {
    b != [] && |rank| == |b|
      && forall x, y :: 0 <= x < |b| && 0 <= y < |b| ==> (rank[x] < rank[y] <==> RotLess(b, x, y))
  }

  // ----- ranks exist -------------------------------------------------------

  /** How many of the first k rotations are less than x. */
  function CountLess(b: seq<Byte>, x: nat, k: nat): nat
    requires b != []
  {
    if k == 0 then 0 else CountLess(b, x, k - 1) + if RotLess(b, k - 1, x) then 1 else 0
  }

  lemma RotLessTrans(b: seq<Byte>, x: nat, y: nat, z: nat)
    requires b != [] && RotLess(b, x, y)
    ensures RotLess(b, y, z) ==> RotLess(b, x, z)
    ensures !RotLess(b, z, y) ==> RotLess(b, x, z)
  {
    Trichotomy(b, x, y, |b|);
    Trichotomy(b, y, z, |b|);
    Trichotomy(b, x, z, |b|);
    if !RotLess(b, z, y) && !RotLess(b, x, z) {
      Transitivity(b, y, z, x, |b|);
    }
  }

  lemma {:induction false} CountLessMonotone(b: seq<Byte>, x: nat, y: nat, k: nat)
    requires b != [] && !RotLess(b, y, x)
    ensures CountLess(b, x, k) <= CountLess(b, y, k)
    ensures RotLess(b, x, y) && x < k ==> CountLess(b, x, k) < CountLess(b, y, k)
  {
    hide RotLess;
    if k > 0 {
      CountLessMonotone(b, x, y, k - 1);
      LessEither(b, k - 1, x, y);
      NotSelf(b, x);
    }
  }

  lemma NotSelf(b: seq<Byte>, x: nat)
    requires b != []
    ensures !RotLess(b, x, x)
  {
    Trichotomy(b, x, x, |b|);
  }

  lemma LessEither(b: seq<Byte>, z: nat, x: nat, y: nat)
    requires b != [] && !RotLess(b, y, x)
    ensures RotLess(b, z, x) ==> RotLess(b, z, y)
  {
    if RotLess(b, z, x) {
      RotLessTrans(b, z, x, y);
    }
  }

  /** Every block has ranks. */
  ghost function RankOf(b: seq<Byte>): (rank: seq<int>)
    requires b != []
    ensures Ranked(b, rank)
  {
    var rank := seq(|b|, x requires 0 <= x < |b| => CountLess(b, x, |b|));
    RankOfIs(b, rank);
    rank
  }

  lemma RankOfIs(b: seq<Byte>, rank: seq<int>)
    requires b != [] && |rank| == |b| && forall x :: 0 <= x < |b| ==> rank[x] == CountLess(b, x, |b|)
    ensures Ranked(b, rank)
  {
    forall x, y | 0 <= x < |b| && 0 <= y < |b| ensures rank[x] < rank[y] <==> RotLess(b, x, y) {
      if RotLess(b, x, y) {
        Trichotomy(b, x, y, |b|);
        CountLessMonotone(b, x, y, |b|);
      } else {
        CountLessMonotone(b, y, x, |b|);
      }
    }
  }

  // ----- comparing entries -------------------------------------------------

  /** Entries lo..hi agree with rotation x0 on their first d bytes. */
  ghost predicate Agree(b: seq<Byte>, s: seq<int>, lo: int, hi: int, d: nat, x0: nat) {
    b != [] && 0 <= lo && hi < |s| && InRange(s, |b|) && forall a :: lo <= a <= hi ==> Same(b, x0, s[a], d)
  }

  lemma AgreePermuted(b: seq<Byte>, s: seq<int>, t: seq<int>, lo: nat, hi: int, d: nat, x0: nat)
    requires Agree(b, s, lo, hi, d, x0) && Permuted(s, t, lo, hi) && InRange(t, |b|)
    ensures Agree(b, t, lo, hi, d, x0)
  {
    forall a | lo <= a <= hi ensures Same(b, x0, t[a], d) {
      PermutedMember(s, t, lo, hi, a);
    }
  }

  /** What a comparison d bytes further on says about entries that agree on d
      bytes. */
  lemma VerdictRanks(b: seq<Byte>, quadrant: seq<int>, rank: seq<int>, x0: nat, x: nat, y: nat, d: nat, greater: bool)
    requires Ranked(b, rank) && x < |b| && y < |b| && Same(b, x0, x, d) && Same(b, x0, y, d)
    requires Verdict(b, quadrant, x + d, y + d, greater)
    ensures if greater then rank[y] <= rank[x] else rank[x] <= rank[y]
  {
    Trichotomy(b, x0, x, d);
    Trichotomy(b, x0, y, d);
    Trichotomy(b, x, x0, d);
    Transitivity(b, x, x0, y, d);
    Trichotomy(b, x, y, d);
    Offset(b, x, y, d);
    Offset(b, y, x, d);
  }

  lemma Offset(b: seq<Byte>, x: nat, y: nat, d: nat)
    requires b != [] && Same(b, x, y, d)
    ensures Less(b, x + d, y + d, |b|) <==> Less(b, x, y, |b|)
  {
    Split(b, x, y, d, |b|);
    Trichotomy(b, x, y, d);
    WholeOrder(b, x, y, d + |b|);
  }

  /** The block, its quadrants and its ranks, as every comparison needs them. */
  datatype Context = Context(block: seq<Byte>, quadrant: seq<int>, n: nat) {
    ghost predicate Fits(b: seq<Byte>) {
      Continued(block, b) && QuadrantsContinued(quadrant, |b|) && NotAgainst(b, quadrant) && BZ_N_OVERSHOOT <= n == |b|
    }
  }

  /** mainGtU on two entries, d bytes further on. */
  method Greater(c: Context, ghost b: seq<Byte>, ghost rank: seq<int>, ghost x0: nat, x: nat, y: nat, d: nat,
      budget0: int) returns (greater: bool, budget: int)
    requires c.Fits(b) && Ranked(b, rank) && x < |b| && y < |b| && d <= MAX_D && Same(b, x0, x, d) && Same(b, x0, y, d)
    ensures (if greater then rank[y] <= rank[x] else rank[x] <= rank[y]) && budget0 - Cost(|b|) <= budget <= budget0
  {
    hide Verdict, Continued, QuadrantsContinued, NotAgainst, Ranked, Same;
    greater, budget := GtU(c.block, c.quadrant, c.n, b, x + d, y + d, budget0);
    VerdictRanks(b, c.quadrant, rank, x0, x, y, d, greater);
  }

  // ----- insertion ---------------------------------------------------------

  /** All of lo..hi except the hole is in order, and what lies behind the hole
      does not come before the entry waiting to go in. */
  ghost predicate HoleBack(rank: seq<int>, s: seq<int>, lo: int, hi: int, hole: int, v: int)
    requires InRange(s, |rank|) && 0 <= lo <= hole <= hi < |s| && 0 <= v < |rank|
  {
    && (forall a, c :: lo <= a < c <= hi && a != hole && c != hole ==> Ord(rank, s, a, c))
    && (forall a :: hole < a <= hi ==> rank[v] <= rank[s[a]])
  }

  lemma HoleBackStep(rank: seq<int>, s: seq<int>, lo: int, hi: int, j: int, v: int)
    requires InRange(s, |rank|) && 0 <= lo < j <= hi < |s| && 0 <= v < |rank|
    requires HoleBack(rank, s, lo, hi, j, v) && rank[v] <= rank[s[j - 1]]
    ensures InRange(s[j := s[j - 1]], |rank|) && HoleBack(rank, s[j := s[j - 1]], lo, hi, j - 1, v)
  {
    var t := s[j := s[j - 1]];
    forall a, c | lo <= a < c <= hi && a != j - 1 && c != j - 1 ensures Ord(rank, t, a, c) {
      assert Ord(rank, s, if a == j then j - 1 else a, if c == j then j - 1 else c);
    }
  }

  lemma HoleBackFill(rank: seq<int>, s: seq<int>, lo: int, hi: int, j: int, v: int)
    requires InRange(s, |rank|) && 0 <= lo <= j <= hi < |s| && 0 <= v < |rank|
    requires HoleBack(rank, s, lo, hi, j, v) && (j > lo ==> rank[s[j - 1]] <= rank[v])
    ensures InRange(s[j := v], |rank|) && SortedRange(rank, s[j := v], lo, hi)
  {
    var t := s[j := v];
    forall a, c | lo <= a < c <= hi ensures Ord(rank, t, a, c) {
      if a != j && c != j {
        assert Ord(rank, s, a, c);
      } else if c == j && a != j - 1 {
        assert Ord(rank, s, a, j - 1);
      }
    }
  }

  /** Entry i goes down the chain of entries h apart; with h one, into the
      sorted range before it. */
  method InsertBack(ptr: array<int>, c: Context, ghost b: seq<Byte>, ghost rank: seq<int>, ghost x0: nat, lo: nat,
      i: nat, hi: nat, h: nat, d: nat, budget0: int) returns (budget: int)
    requires c.Fits(b) && Ranked(b, rank) && d <= MAX_D && 0 < h && lo + h <= i <= hi < ptr.Length
    requires Agree(b, ptr[..], lo, hi, d, x0) && (h == 1 ==> SortedRange(rank, ptr[..], lo, i - 1))
    modifies ptr
    ensures Permuted(old(ptr[..]), ptr[..], lo, hi) && InRange(ptr[..], |b|) && budget <= budget0
    ensures h == 1 ==> SortedRange(rank, ptr[..], lo, i)
    ensures i == lo + h ==> budget >= budget0 - Cost(|b|)
  {
    hide Permuted, Inserting, SortedRange, Agree, Ranked, Same, InRange, Context.Fits, Cost;
    budget := budget0;
    var v := ptr[i];
    var j := i;
    ghost var start, s := ptr[..], ptr[..];
    InsertBegins(b, rank, s, lo, i, hi, h, d, x0);
    while true
      invariant lo + h <= j <= i && budget <= budget0 && (j == i ==> budget == budget0)
      invariant s == ptr[..] && Inserting(b, rank, start, s, lo, i, hi, h, j, v, d, x0)
      decreases j
    {
      InsertFacts(b, rank, start, s, lo, i, hi, h, j, v, d, x0);
      var greater;
      greater, budget := Greater(c, b, rank, x0, ptr[j - h], v, d, budget);
      if !greater {
        InsertEnds(b, rank, start, s, lo, i, hi, h, j, v, d, x0);
        break;
      }
      InsertGoesOn(b, rank, start, s, lo, i, hi, h, j, v, d, x0);
      ptr[j] := ptr[j - h];
      s := s[j := s[j - h]];
      j := j - h;
      if j <= lo + h - 1 {
        InsertEnds(b, rank, start, s, lo, i, hi, h, j, v, d, x0);
        break;
      }
    }
    ptr[j] := v;
    assert ptr[..] == s[j := v];
  }

  /** The state while entry v is on its way down to place j. */
  ghost predicate Inserting(b: seq<Byte>, rank: seq<int>, start: seq<int>, s: seq<int>, lo: nat, i: nat, hi: nat,
      h: nat, j: nat, v: int, d: nat, x0: nat) {
    && b != [] && |rank| == |b| && lo <= j <= i <= hi < |s| && InRange(s, |b|) && 0 <= v < |b| && Same(b, x0, v, d)
    && Permuted(start, s[j := v], lo, hi) && Agree(b, start, lo, hi, d, x0)
    && (h == 1 ==> HoleBack(rank, s, lo, i, j, v))
  }

  lemma InsertBegins(b: seq<Byte>, rank: seq<int>, s: seq<int>, lo: nat, i: nat, hi: nat, h: nat, d: nat, x0: nat)
    requires Ranked(b, rank) && Agree(b, s, lo, hi, d, x0) && 0 < h && lo + h <= i <= hi
      && (h == 1 ==> SortedRange(rank, s, lo, i - 1))
    ensures Inserting(b, rank, s, s, lo, i, hi, h, i, s[i], d, x0)
  {
    assert s[i := s[i]] == s;
    if h == 1 {
      forall a, c | lo <= a < c <= i && a != i && c != i ensures Ord(rank, s, a, c) {
      }
    }
  }

  /** The entry compared next is one that agrees on the first d bytes. */
  lemma InsertFacts(b: seq<Byte>, rank: seq<int>, start: seq<int>, s: seq<int>, lo: nat, i: nat, hi: nat, h: nat,
      j: nat, v: int, d: nat, x0: nat)
    requires Inserting(b, rank, start, s, lo, i, hi, h, j, v, d, x0) && 0 < h && lo + h <= j
    ensures b != [] && 0 <= v < |b| && 0 <= s[j - h] < |b| && Same(b, x0, v, d) && Same(b, x0, s[j - h], d)
  {
    hide HoleBack, Same;
    var t := s[j := v];
    PermutedMember(start, t, lo, hi, j - h);
    assert t[j - h] == s[j - h];
  }

  lemma InsertGoesOn(b: seq<Byte>, rank: seq<int>, start: seq<int>, s: seq<int>, lo: nat, i: nat, hi: nat, h: nat,
      j: nat, v: int, d: nat, x0: nat)
    requires Inserting(b, rank, start, s, lo, i, hi, h, j, v, d, x0) && 0 < h && lo + h <= j && 0 <= s[j - h] < |b|
      && rank[v] <= rank[s[j - h]]
    ensures Inserting(b, rank, start, s[j := s[j - h]], lo, i, hi, h, j - h, v, d, x0)
  {
    hide HoleBack, Same, Permuted;
    ShiftPermutes(start, s, j, j - h, v, lo, hi);
    if h == 1 {
      HoleBackStep(rank, s, lo, i, j, v);
    }
  }

  lemma InsertEnds(b: seq<Byte>, rank: seq<int>, start: seq<int>, s: seq<int>, lo: nat, i: nat, hi: nat, h: nat, j: nat,
      v: int, d: nat, x0: nat)
    requires Inserting(b, rank, start, s, lo, i, hi, h, j, v, d, x0) && 0 < h
    requires j <= lo + h - 1 || (0 <= s[j - h] < |b| && rank[s[j - h]] <= rank[v])
    ensures var t := s[j := v];
      Permuted(start, t, lo, hi) && InRange(t, |b|) && (h == 1 ==> SortedRange(rank, t, lo, i))
  {
    hide HoleBack, Same, Permuted;
    if h == 1 {
      HoleBackFill(rank, s, lo, i, j, v);
    }
  }

  // ----- the passes --------------------------------------------------------

  const INCS := [1, 4, 13, 40, 121, 364, 1093, 3280, 9841, 29524, 88573, 265720, 797161, 2391484]

  /** Between two insertions of the pass with gap h. */
  ghost predicate Passing(b: seq<Byte>, rank: seq<int>, start: seq<int>, s: seq<int>, lo: nat, i: nat, hi: int, h: nat,
      d: nat, x0: nat) {
    && Permuted(start, s, lo, hi) && Agree(b, s, lo, hi, d, x0) && |rank| == |b|
    && (h == 1 ==> i - 1 < |s| && SortedRange(rank, s, lo, i - 1))
  }

  lemma PassingMore(b: seq<Byte>, rank: seq<int>, start: seq<int>, s: seq<int>, t: seq<int>, lo: nat, i: nat, hi: int,
      h: nat, d: nat, x0: nat)
    requires Passing(b, rank, start, s, lo, i, hi, h, d, x0) && lo <= i <= hi && Permuted(s, t, lo, hi)
      && InRange(t, |b|)
    requires h == 1 ==> SortedRange(rank, t, lo, i)
    ensures Passing(b, rank, start, t, lo, i + 1, hi, h, d, x0)
  {
    hide SortedRange, Agree;
    PermutedTrans(start, s, t, lo, hi);
    AgreePermuted(b, s, t, lo, hi, d, x0);
  }

  lemma PassingIs(b: seq<Byte>, rank: seq<int>, start: seq<int>, s: seq<int>, lo: nat, i: nat, hi: int, h: nat, d: nat,
      x0: nat)
    requires Passing(b, rank, start, s, lo, i, hi, h, d, x0)
    ensures Permuted(start, s, lo, hi) && Agree(b, s, lo, hi, d, x0) && |rank| == |b| && InRange(s, |b|)
    ensures h == 1 ==> i - 1 < |s| && SortedRange(rank, s, lo, i - 1)
  {
  }

  /** One pass; the budget is looked at after every third insertion. */
  method GapPass(ptr: array<int>, c: Context, ghost b: seq<Byte>, ghost rank: seq<int>, ghost x0: nat, lo: nat, hi: nat,
      h: nat, d: nat, budget0: int) returns (budget: int, abandoned: bool)
    requires c.Fits(b) && Ranked(b, rank) && d <= MAX_D && 0 < h && lo + h <= hi < ptr.Length
      && Agree(b, ptr[..], lo, hi, d, x0)
    modifies ptr
    ensures Permuted(old(ptr[..]), ptr[..], lo, hi) && Agree(b, ptr[..], lo, hi, d, x0) && InRange(ptr[..], |b|)
      && |rank| == |b|
    ensures if abandoned then budget < 0 else h == 1 ==> SortedRange(rank, ptr[..], lo, hi)
    ensures budget <= budget0 && (hi == lo + h ==> !abandoned && budget >= budget0 - Cost(|b|))
  {
    hide Permuted, SortedRange, Agree, Ranked, Same, InRange, Context.Fits, Passing, Cost;
    ghost var start := ptr[..];
    PassBegins(b, rank, start, lo, hi, h, d, x0);
    budget, abandoned := budget0, false;
    var i := lo + h;
    while i <= hi
      invariant lo + h <= i <= hi + 1 && budget <= budget0 && (i == lo + h ==> budget == budget0)
        && (hi == lo + h ==> budget >= budget0 - Cost(|b|))
      invariant Passing(b, rank, start, ptr[..], lo, i, hi, h, d, x0)
      decreases hi + 1 - i
    {
      var i0 := i;
      budget, i := ThreeInserts(ptr, c, b, rank, x0, start, lo, i, hi, h, d, budget);
      if i == i0 + 3 && budget < 0 {
        PassingIs(b, rank, start, ptr[..], lo, i, hi, h, d, x0);
        return budget, true;
      }
    }
    PassingIs(b, rank, start, ptr[..], lo, i, hi, h, d, x0);
  }

  lemma PassBegins(b: seq<Byte>, rank: seq<int>, s: seq<int>, lo: nat, hi: nat, h: nat, d: nat, x0: nat)
    requires Ranked(b, rank) && Agree(b, s, lo, hi, d, x0) && 0 < h && lo + h <= hi
    ensures Passing(b, rank, s, s, lo, lo + h, hi, h, d, x0)
  {
  }

  method ThreeInserts(ptr: array<int>, c: Context, ghost b: seq<Byte>, ghost rank: seq<int>, ghost x0: nat,
      ghost start: seq<int>, lo: nat, i0: nat, hi: nat, h: nat, d: nat, budget0: int)
    returns (budget: int, i: nat)
    requires c.Fits(b) && Ranked(b, rank) && d <= MAX_D && 0 < h && lo + h <= i0 <= hi < ptr.Length
    requires Passing(b, rank, start, ptr[..], lo, i0, hi, h, d, x0)
    modifies ptr
    ensures i0 < i <= hi + 1 && budget <= budget0 && Passing(b, rank, start, ptr[..], lo, i, hi, h, d, x0)
    ensures hi == i0 == lo + h ==> budget >= budget0 - Cost(|b|)
  {
    hide Permuted, SortedRange, Agree, Ranked, Same, InRange, Context.Fits, Passing, Cost;
    budget, i := budget0, i0;
    for copy := 0 to 3
      invariant lo + h <= i <= hi + 1 && budget <= budget0 && (if copy == 0 then i == i0 else i0 < i)
      invariant (i == i0 ==> budget == budget0) && (hi == i0 == lo + h ==> budget >= budget0 - Cost(|b|))
      invariant Passing(b, rank, start, ptr[..], lo, i, hi, h, d, x0)
    {
      if i > hi {
        break;
      }
      ghost var s := ptr[..];
      PassingIs(b, rank, start, s, lo, i, hi, h, d, x0);
      budget := InsertBack(ptr, c, b, rank, x0, lo, i, hi, h, d, budget);
      PassingMore(b, rank, start, s, ptr[..], lo, i, hi, h, d, x0);
      i := i + 1;
    }
  }

  /** The largest gap below the number of entries. */
  method FirstGap(bigN: int) returns (hp: int)
    requires 2 <= bigN <= INCS[13]
    ensures 0 <= hp < 13 && INCS[hp] < bigN <= INCS[hp + 1]
  {
    hp := 0;
    while INCS[hp] < bigN
      invariant 0 <= hp < 14 && (hp > 0 ==> INCS[hp - 1] < bigN)
      decreases 14 - hp
    {
      hp := hp + 1;
    }
    hp := hp - 1;
  }

  lemma GapRange(hp: int)
    requires 0 <= hp < 13
    ensures |INCS| == 14 && 0 < INCS[hp] && (INCS[hp] == 1 <==> hp == 0) && (INCS[hp] < 2 ==> hp == 0)
  {
  }

  /** mainSimpleSort: always a rearrangement; in order if the budget lasts. Two
      entries take one comparison. */
  method SimpleSort(ptr: array<int>, c: Context, ghost b: seq<Byte>, ghost rank: seq<int>, ghost x0: nat, lo: nat,
      hi: int, d: nat, budget0: int) returns (budget: int)
    requires c.Fits(b) && Ranked(b, rank) && d <= MAX_D && lo <= hi + 1 && hi < ptr.Length
      && Agree(b, ptr[..], lo, hi, d, x0)
    requires hi - lo + 1 <= INCS[13]
    modifies ptr
    ensures Permuted(old(ptr[..]), ptr[..], lo, hi) && InRange(ptr[..], |b|) && |rank| == |b|
    ensures budget >= 0 ==> SortedRange(rank, ptr[..], lo, hi)
    ensures budget <= budget0 && (hi == lo + 1 ==> budget >= budget0 - Cost(|b|))
  {
    hide Permuted, SortedRange, Agree, Ranked, Same, InRange, Context.Fits, INCS, Cost;
    SimpleBegins(b, rank, ptr[..], lo, hi, d, x0);
    budget := budget0;
    var bigN := hi - lo + 1;
    if bigN < 2 {
      return;
    }
    var hp := FirstGap(bigN);
    ghost var start, first := ptr[..], hp;
    GapRange(hp);
    while hp >= 0
      invariant -1 <= hp <= first && (hp >= 0 ==> INCS[hp] < bigN) && budget <= budget0
        && (hp == first ==> budget == budget0) && (bigN == 2 ==> budget >= budget0 - Cost(|b|))
      invariant Permuted(start, ptr[..], lo, hi) && Agree(b, ptr[..], lo, hi, d, x0) && InRange(ptr[..], |b|)
        && |rank| == |b|
      invariant hp == -1 ==> SortedRange(rank, ptr[..], lo, hi)
    {
      ghost var s := ptr[..];
      var abandoned;
      GapRange(hp);
      budget, abandoned := GapPass(ptr, c, b, rank, x0, lo, hi, INCS[hp], d, budget);
      PermutedTrans(start, s, ptr[..], lo, hi);
      if abandoned {
        return;
      }
      hp := hp - 1;
      if hp >= 0 {
        GapsFall(hp);
      }
    }
  }

  lemma GapsFall(hp: int)
    requires 0 <= hp < 12
    ensures INCS[hp] < INCS[hp + 1]
  {
  }

  lemma SimpleBegins(b: seq<Byte>, rank: seq<int>, s: seq<int>, lo: nat, hi: int, d: nat, x0: nat)
    requires Ranked(b, rank) && Agree(b, s, lo, hi, d, x0) && lo <= hi + 1
    ensures Permuted(s, s, lo, hi) && InRange(s, |b|) && |rank| == |b|
      && (hi - lo + 1 < 2 ==> SortedRange(rank, s, lo, hi))
  {
  }
}
