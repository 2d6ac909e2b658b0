/** The comparison of the main sort: bytes first, then the cached order in the
    quadrants, eight places at a time around the block. */
module MainCompare {
  import opened Sizes
  import opened Rotations

  /** A deepest offset from which a comparison may start. */
  const MAX_D := 15

  /** The block, continued into the overshoot area by its own beginning. */
  ghost predicate Continued(block: seq<Byte>, b: seq<Byte>) {
    b != [] && |block| == |b| + BZ_N_OVERSHOOT && forall i :: 0 <= i < |block| ==> block[i] == At(b, i)
  }

  ghost predicate QuadrantsContinued(quadrant: seq<int>, n: nat) {
    n > 0 && |quadrant| == n + BZ_N_OVERSHOOT && forall i :: 0 <= i < |quadrant| ==> quadrant[i] == quadrant[Wrap(n, i)]
  }

  /** What the quadrants are documented to mean. */
  ghost predicate Decided(b: seq<Byte>, quadrant: seq<int>) {
    |b| <= |quadrant|
      && forall i, j :: 0 <= i < |b| && 0 <= j < |b| && b[i] == b[j] && quadrant[i] < quadrant[j] ==> RotLess(b, i, j)
  }

  /** What they can mean when rotations may be equal. */
  ghost predicate NotAgainst(b: seq<Byte>, quadrant: seq<int>) {
    |b| <= |quadrant|
      && forall i, j :: 0 <= i < |b| && 0 <= j < |b| && b[i] == b[j] && quadrant[i] < quadrant[j] ==> !RotLess(b, j, i)
  }

  /** The verdict `greater` on rotations i and j does not contradict their
      order, and is exact if the quadrants are. */
  ghost predicate Verdict(b: seq<Byte>, quadrant: seq<int>, i: nat, j: nat, greater: bool)
    requires b != []
  {
    && (if greater then !Less(b, i, j, |b|) else !Less(b, j, i, |b|))
    && (Decided(b, quadrant) ==> greater == Less(b, j, i, |b|))
  }

  // ----- why each way to decide is right -----------------------------------

  /** The first t bytes agree and the next ones do not. */
  lemma ByBytes(b: seq<Byte>, quadrant: seq<int>, i: nat, j: nat, t: nat)
    requires b != [] && Same(b, i, j, t) && At(b, i + t) != At(b, j + t)
    ensures Verdict(b, quadrant, i, j, At(b, i + t) > At(b, j + t))
  {
    Split(b, i, j, t, |b|);
    Trichotomy(b, i, j, t);
    Trichotomy(b, j, i, t);
    Split(b, j, i, t, |b|);
    WholeOrder(b, i, j, t + |b|);
    WholeOrder(b, j, i, t + |b|);
  }

  /** The first t bytes agree, and what follows is ordered as given. */
  lemma Shifted(b: seq<Byte>, i: nat, j: nat, t: nat)
    requires b != [] && Same(b, i, j, t)
    ensures Less(b, i, j, |b|) <==> Less(b, Wrap(|b|, i + t), Wrap(|b|, j + t), |b|)
  {
    Split(b, i, j, t, |b|);
    Trichotomy(b, i, j, t);
    WholeOrder(b, i, j, t + |b|);
    Around(b, i + t, j + t, |b|);
  }

  lemma ByQuadrants(b: seq<Byte>, quadrant: seq<int>, i: nat, j: nat, t: nat)
    requires b != [] && |b| <= |quadrant| && NotAgainst(b, quadrant) && Same(b, i, j, t) && At(b, i + t) == At(b, j + t)
    requires quadrant[Wrap(|b|, i + t)] != quadrant[Wrap(|b|, j + t)]
    ensures Verdict(b, quadrant, i, j, quadrant[Wrap(|b|, i + t)] > quadrant[Wrap(|b|, j + t)])
  {
    Shifted(b, i, j, t);
    Trichotomy(b, i, j, t);
    Shifted(b, j, i, t);
    Trichotomy(b, i, j, |b|);
  }

  lemma AllAgree(b: seq<Byte>, quadrant: seq<int>, i: nat, j: nat, t: nat)
    requires b != [] && Same(b, i, j, t) && t >= |b|
    ensures Verdict(b, quadrant, i, j, false)
  {
    WholeOrder(b, i, j, t);
    Trichotomy(b, i, j, |b|);
  }

  lemma OneFurther(b: seq<Byte>, i: nat, j: nat, t: nat)
    requires b != [] && Same(b, i, j, t) && At(b, i + t) == At(b, j + t)
    ensures Same(b, i, j, t + 1)
  {
    Split(b, i, j, t, 1);
  }

  lemma NotFurther(b: seq<Byte>, i: nat, j: nat, t: nat)
    requires b != [] && At(b, i + t) != At(b, j + t)
    ensures !Same(b, i, j, t + 1)
  {
    Split(b, i, j, t, 1);
  }

  // ----- what a comparison costs -------------------------------------------

  /** The quadrant u places along from i. */
  ghost function QuadrantAt(quadrant: seq<int>, n: nat, i: nat, u: nat): int
    requires 0 < n <= |quadrant|
  {
    quadrant[Wrap(n, i + u)]
  }

  /** The first t places agree: bytes throughout, and quadrants from the twelfth
      place on. */
  ghost predicate Matches(b: seq<Byte>, quadrant: seq<int>, i: nat, j: nat, t: nat) {
    && b != [] && |b| <= |quadrant| && Same(b, i, j, t)
    && forall u :: 12 <= u < t ==> QuadrantAt(quadrant, |b|, i, u) == QuadrantAt(quadrant, |b|, j, u)
  }

  lemma MatchesFewer(b: seq<Byte>, quadrant: seq<int>, i: nat, j: nat, s: nat, t: nat)
    requires Matches(b, quadrant, i, j, t) && s <= t
    ensures Matches(b, quadrant, i, j, s)
  {
    Split(b, i, j, s, t - s);
  }

  /** A comparison takes one from the budget for every eight places after the first
      twelve that agree, all around the block at most. */
  ghost predicate Spent(b: seq<Byte>, quadrant: seq<int>, i: nat, j: nat, m: int) {
    && 0 <= m <= |b| / 8 + 2
    && (m > 0 ==> Matches(b, quadrant, i, j, 12 + 8 * m))
    && (m < |b| / 8 + 2 ==> !Matches(b, quadrant, i, j, 20 + 8 * m))
  }

  // ----- the comparison ----------------------------------------------------

  /** A place p in the continued block that is t along from i. */
  ghost predicate Along(n: nat, i: nat, t: nat, p: nat) {
    n > 0 && p < n + BZ_N_OVERSHOOT && Wrap(n, p) == Wrap(n, i + t)
  }

  datatype Answer = Unequal(greater: bool) | Equal

  /** One place: bytes only. */
  method ByteStep(block: seq<Byte>, ghost b: seq<Byte>, ghost quadrant: seq<int>, ghost i: nat, ghost j: nat,
      ghost t: nat, p: nat, q: nat) returns (a: Answer)
    requires Continued(block, b) && Along(|b|, i, t, p) && Along(|b|, j, t, q) && Same(b, i, j, t)
    ensures a.Unequal? ==> Verdict(b, quadrant, i, j, a.greater) && !Same(b, i, j, t + 1)
    ensures a.Equal? ==> Same(b, i, j, t + 1) && block[p] == block[q]
  {
    hide Verdict, Same;
    var c1, c2 := block[p], block[q];
    assert c1 == At(b, i + t) && c2 == At(b, j + t);
    if c1 != c2 {
      ByBytes(b, quadrant, i, j, t);
      NotFurther(b, i, j, t);
      return Unequal(c1 > c2);
    }
    OneFurther(b, i, j, t);
    a := Equal;
  }

  /** One place: bytes, then quadrants. */
  method QuadrantStep(block: seq<Byte>, quadrant: seq<int>, ghost b: seq<Byte>, ghost i: nat, ghost j: nat,
      ghost t: nat, p: nat, q: nat) returns (a: Answer)
    requires Continued(block, b) && QuadrantsContinued(quadrant, |b|) && NotAgainst(b, quadrant)
    requires Along(|b|, i, t, p) && Along(|b|, j, t, q) && Matches(b, quadrant, i, j, t) && t >= 12
    ensures a.Unequal? ==> Verdict(b, quadrant, i, j, a.greater) && !Matches(b, quadrant, i, j, t + 1)
    ensures a.Equal? ==> Matches(b, quadrant, i, j, t + 1)
  {
    hide Verdict, Same, NotAgainst;
    assert QuadrantAt(quadrant, |b|, i, t) == quadrant[p] && QuadrantAt(quadrant, |b|, j, t) == quadrant[q];
    a := ByteStep(block, b, quadrant, i, j, t, p, q);
    if a.Equal? {
      var s1, s2 := quadrant[p], quadrant[q];
      if s1 != s2 {
        assert At(b, i + t) == block[p] && At(b, j + t) == block[q];
        ByQuadrants(b, quadrant, i, j, t);
        a := Unequal(s1 > s2);
      }
    }
  }

  lemma AlongStep(n: nat, i: nat, t: nat, p: nat, m: nat)
    requires Along(n, i, t, p) && p + m < n + BZ_N_OVERSHOOT
    ensures Along(n, i, t + m, p + m)
  {
    WrapAdd(n, p, m);
    WrapAdd(n, i + t, m);
    assert i + t + m == i + (t + m);
  }

  /** The eight places of one turn of the loop. */
  method EightPlaces(block: seq<Byte>, quadrant: seq<int>, ghost b: seq<Byte>, ghost i: nat, ghost j: nat, ghost t: nat,
      p: nat, q: nat) returns (a: Answer)
    requires Continued(block, b) && QuadrantsContinued(quadrant, |b|) && NotAgainst(b, quadrant)
    requires Along(|b|, i, t, p) && Along(|b|, j, t, q) && Matches(b, quadrant, i, j, t) && t >= 12
    requires p + 8 <= |b| + BZ_N_OVERSHOOT && q + 8 <= |b| + BZ_N_OVERSHOOT
    ensures a.Unequal? ==> Verdict(b, quadrant, i, j, a.greater) && !Matches(b, quadrant, i, j, t + 8)
    ensures a.Equal? ==> Matches(b, quadrant, i, j, t + 8)
  {
    hide QuadrantsContinued, NotAgainst, Along, Matches, Verdict, At, Wrap;
    for m := 0 to 8
      invariant Matches(b, quadrant, i, j, t + m)
    {
      AlongStep(|b|, i, t, p, m);
      AlongStep(|b|, j, t, q, m);
      a := QuadrantStep(block, quadrant, b, i, j, t + m, p + m, q + m);
      if a.Unequal? {
        if Matches(b, quadrant, i, j, t + 8) {
          MatchesFewer(b, quadrant, i, j, t + m + 1, t + 8);
        }
        return;
      }
    }
    a := Equal;
  }

  lemma FewerSame(b: seq<Byte>, i: nat, j: nat, s: nat, t: nat)
    requires b != [] && !Same(b, i, j, s) && s <= t
    ensures !Same(b, i, j, t)
  {
    Split(b, i, j, s, t - s);
  }

  /** The twelve places compared by bytes alone. */
  method TwelvePlaces(block: seq<Byte>, ghost quadrant: seq<int>, ghost b: seq<Byte>, i: nat, j: nat)
      returns (a: Answer)
    requires Continued(block, b) && i < |b| + MAX_D && j < |b| + MAX_D
    ensures a.Unequal? ==> Verdict(b, quadrant, i, j, a.greater) && !Same(b, i, j, 12)
    ensures a.Equal? ==> Same(b, i, j, 12)
  {
    assert Along(|b|, i, 0, i) && Along(|b|, j, 0, j) && Same(b, i, j, 0);
    hide Along, Same, Verdict, Continued, At, Wrap;
    for m := 0 to BZ_N_QSORT
      invariant Same(b, i, j, m)
    {
      AlongStep(|b|, i, 0, i, m);
      AlongStep(|b|, j, 0, j, m);
      a := ByteStep(block, b, quadrant, i, j, m, i + m, j + m);
      if a.Unequal? {
        FewerSame(b, i, j, m + 1, 12);
        return;
      }
    }
    a := Equal;
  }

  /** i += 8; if (i >= nblock) i -= nblock; */
  method Advance(n: nat, ghost i: nat, ghost t: nat, p: nat) returns (p': nat)
    requires Along(n, i, t, p) && p + 8 <= n + BZ_N_OVERSHOOT && BZ_N_OVERSHOOT <= n
    ensures Along(n, i, t + 8, p') && p' + 8 <= n + BZ_N_OVERSHOOT
  {
    WrapAdd(n, p, 8);
    WrapAdd(n, i + t, 8);
    assert i + t + 8 == i + (t + 8);
    p' := p + 8;
    if p' >= n {
      p' := p' - n;
    }
  }

  /** The most a comparison can take from the budget. */
  function Cost(n: nat): nat {
    n / 8 + 2
  }

  /** mainGtU: with quadrants as documented, true exactly when the rotation at i
      is strictly greater than the one at j. All places read are in the block
      or its overshoot area. */
  method GtU(block: seq<Byte>, quadrant: seq<int>, n: nat, ghost b: seq<Byte>, i: nat, j: nat, budget0: int)
      returns (greater: bool, budget: int)
    requires Continued(block, b) && QuadrantsContinued(quadrant, |b|) && NotAgainst(b, quadrant)
    requires BZ_N_OVERSHOOT <= n == |b| && i < n + MAX_D && j < n + MAX_D
    ensures Verdict(b, quadrant, i, j, greater) && budget0 - Cost(n) <= budget <= budget0
    ensures Spent(b, quadrant, i, j, budget0 - budget)
  {
    hide Continued, QuadrantsContinued, NotAgainst, Along, Matches, Same, Verdict;
    StartAlong(n, i);
    StartAlong(n, j);
    budget := budget0;
    var a := TwelvePlaces(block, quadrant, b, i, j);
    TwelveMatch(b, quadrant, i, j);
    if a.Unequal? {
      return a.greater, budget;
    }
    var p: nat, q: nat, k := i + BZ_N_QSORT, j + BZ_N_QSORT, n + 8;
    ghost var t := BZ_N_QSORT;
    AlongStep(n, i, 0, i, BZ_N_QSORT);
    AlongStep(n, j, 0, j, BZ_N_QSORT);
    while true
      invariant 0 <= k <= n + 8 && t == BZ_N_QSORT + (n + 8 - k) && 8 * (budget0 - budget) == n + 8 - k
      invariant Along(n, i, t, p) && Along(n, j, t, q) && Matches(b, quadrant, i, j, t)
      invariant p + 8 <= n + BZ_N_OVERSHOOT && q + 8 <= n + BZ_N_OVERSHOOT
      decreases k
    {
      a := EightPlaces(block, quadrant, b, i, j, t, p, q);
      if a.Unequal? {
        return a.greater, budget;
      }
      p := Advance(n, i, t, p);
      q := Advance(n, j, t, q);
      t := t + 8;
      k := k - 8;
      budget := budget - 1;
      if k < 0 {
        break;
      }
    }
    MatchedSame(b, quadrant, i, j, t);
    AllAgree(b, quadrant, i, j, t);
    greater := false;
  }

  lemma TwelveMatch(b: seq<Byte>, quadrant: seq<int>, i: nat, j: nat)
    requires QuadrantsContinued(quadrant, |b|)
    ensures Matches(b, quadrant, i, j, 12) <==> Same(b, i, j, 12)
    ensures Matches(b, quadrant, i, j, 20) ==> Same(b, i, j, 12)
  {
    Split(b, i, j, 12, 8);
  }

  lemma MatchedSame(b: seq<Byte>, quadrant: seq<int>, i: nat, j: nat, t: nat)
    requires Matches(b, quadrant, i, j, t)
    ensures Same(b, i, j, t)
  {
  }

  lemma StartAlong(n: nat, i: nat)
    requires n > 0 && i < n + MAX_D
    ensures Along(n, i, 0, i)
  {
  }
}
