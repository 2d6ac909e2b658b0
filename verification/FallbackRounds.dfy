/** The invariant of the exponential radix sort: rotations sorted by their first
    H bytes, header bits marking exactly the classes that agree on them, and
    how one round doubles H. */
module FallbackRounds {
  import opened Permutations
  import opened Rotations

  /** fmap lists the rotations in order of their first h bytes, and bh marks
      exactly the places where those bytes change. */
  ghost predicate Bucketed(b: seq<Byte>, fmap: seq<int>, bh: seq<bool>, h: nat) {
    && b != [] && |fmap| == |b| <= |bh| && IsPerm(fmap) && bh[0]
    && forall i, j :: 0 <= i && j == i + 1 < |b| ==>
      !Less(b, fmap[j], fmap[i], h) && (bh[j] <==> !Same(b, fmap[i], fmap[j], h))
  }

  /** key orders positions exactly as their first h bytes do. */
  ghost predicate Represents(b: seq<Byte>, key: seq<int>, h: nat) {
    && b != [] && |key| == |b|
    && forall p, q :: 0 <= p < |b| && 0 <= q < |b| ==>
      (key[p] < key[q] <==> Less(b, p, q, h)) && (key[p] == key[q] <==> Same(b, p, q, h))
  }

  /** The nearest header bit at or before place i. */
  function StartOf(bh: seq<bool>, i: nat): (j: nat)
    requires i < |bh|
    ensures j <= i
  {
    if i == 0 || bh[i] then i else StartOf(bh, i - 1)
  }

  /** rank gives each rotation the first place of its class. */
  ghost predicate Ranked(fmap: seq<int>, bh: seq<bool>, rank: seq<int>) {
    && |rank| == |fmap| <= |bh| && IsPerm(fmap)
    && forall i :: 0 <= i < |fmap| ==> rank[fmap[i]] == StartOf(bh, i)
  }

  lemma {:induction false} StartMonotone(bh: seq<bool>, i: nat, j: nat)
    requires i <= j < |bh|
    ensures StartOf(bh, i) <= StartOf(bh, j)
    ensures StartOf(bh, i) == StartOf(bh, j) || i < StartOf(bh, j)
    decreases j
  {
    if i < j && !bh[j] {
      StartMonotone(bh, i, j - 1);
    }
  }

  /** Two places have the same start exactly when their rotations agree. */
  lemma {:induction false} Classes(b: seq<Byte>, fmap: seq<int>, bh: seq<bool>, h: nat, i: nat, j: nat)
    requires Bucketed(b, fmap, bh, h) && i <= j < |b|
    ensures !Less(b, fmap[j], fmap[i], h)
    ensures StartOf(bh, i) == StartOf(bh, j) <==> Same(b, fmap[i], fmap[j], h)
    decreases j
  {
    if i == j {
      Trichotomy(b, fmap[i], fmap[i], h);
      Reflexive(b, fmap[i], h);
    } else {
      Classes(b, fmap, bh, h, i, j - 1);
      assert !Less(b, fmap[j], fmap[j - 1], h);
      Transitivity(b, fmap[i], fmap[j - 1], fmap[j], h);
      StartMonotone(bh, i, j - 1);
    }
  }

  lemma {:induction false} Reflexive(b: seq<Byte>, i: nat, h: nat)
    requires b != []
    ensures Same(b, i, i, h)
    decreases h
  {
    if h != 0 {
      Reflexive(b, i + 1, h - 1);
    }
  }

  /** The ranks carry the whole order of the first h bytes. */
  lemma RanksRepresent(b: seq<Byte>, fmap: seq<int>, bh: seq<bool>, rank: seq<int>, h: nat)
    requires Bucketed(b, fmap, bh, h) && Ranked(fmap, bh, rank)
    ensures Represents(b, rank, h)
  {
    forall p, q | 0 <= p < |b| && 0 <= q < |b|
      ensures (rank[p] < rank[q] <==> Less(b, p, q, h)) && (rank[p] == rank[q] <==> Same(b, p, q, h))
    {
      var i, j := Where(fmap, p), Where(fmap, q);
      hide Bucketed;
      if i <= j {
        RankPair(b, fmap, bh, rank, h, i, j);
      } else {
        RankPair(b, fmap, bh, rank, h, j, i);
      }
    }
  }

  lemma RankPair(b: seq<Byte>, fmap: seq<int>, bh: seq<bool>, rank: seq<int>, h: nat, i: nat, j: nat)
    requires Bucketed(b, fmap, bh, h) && Ranked(fmap, bh, rank) && i <= j < |b|
    ensures var p, q := fmap[i], fmap[j];
      && (rank[p] < rank[q] <==> Less(b, p, q, h)) && (rank[p] == rank[q] <==> Same(b, p, q, h))
      && (rank[q] < rank[p] <==> Less(b, q, p, h)) && (rank[q] == rank[p] <==> Same(b, q, p, h))
  {
    Classes(b, fmap, bh, h, i, j);
    StartMonotone(bh, i, j);
    Trichotomy(b, fmap[i], fmap[j], h);
  }

  /** eclass holds the rank of the rotation h places further on. */
  ghost predicate Ahead(b: seq<Byte>, rank: seq<int>, eclass: seq<int>, h: nat) {
    && b != [] && |rank| == |b| == |eclass|
    && forall p :: 0 <= p < |b| ==> eclass[p] == rank[Wrap(|b|, p + h)]
  }

  /** Comparing 2h bytes is comparing the rank, then the rank h places on. */
  lemma Doubling(b: seq<Byte>, rank: seq<int>, eclass: seq<int>, h: nat, p: nat, q: nat)
    requires Represents(b, rank, h) && Ahead(b, rank, eclass, h) && p < |b| && q < |b|
    ensures Less(b, p, q, 2 * h) <==> rank[p] < rank[q] || (rank[p] == rank[q] && eclass[p] < eclass[q])
    ensures Same(b, p, q, 2 * h) <==> rank[p] == rank[q] && eclass[p] == eclass[q]
  {
    Split(b, p, q, h, h);
    Around(b, p + h, q + h, h);
    hide Same, Less, Wrap;
    RanksAhead(b, rank, eclass, h, p, q);
  }

  lemma RanksAhead(b: seq<Byte>, rank: seq<int>, eclass: seq<int>, h: nat, p: nat, q: nat)
    requires Represents(b, rank, h) && Ahead(b, rank, eclass, h) && p < |b| && q < |b|
    ensures b != [] && |rank| == |b| == |eclass| && (Less(b, p, q, h) <==> rank[p] < rank[q])
      && (Same(b, p, q, h) <==> rank[p] == rank[q])
    ensures var p', q' := Wrap(|b|, p + h), Wrap(|b|, q + h);
      (Less(b, p', q', h) <==> eclass[p] < eclass[q]) && (Same(b, p', q', h) <==> eclass[p] == eclass[q])
  {
    hide Same, Less, Wrap;
  }

  /** A finished round: within each old class sorted by eclass, header bits at
      the places where rank or eclass changes. */
  ghost predicate Refined(rank: seq<int>, eclass: seq<int>, fmap: seq<int>, bh: seq<bool>, q: int) {
    && |rank| == |eclass| == |fmap| <= |bh| && IsPerm(fmap) && 0 <= q <= |fmap|
    && forall i, j :: 0 <= i && j == i + 1 < q ==>
      && (rank[fmap[i]] < rank[fmap[j]] || (rank[fmap[i]] == rank[fmap[j]] && eclass[fmap[i]] <= eclass[fmap[j]]))
      && (bh[j] <==> rank[fmap[i]] != rank[fmap[j]] || eclass[fmap[i]] != eclass[fmap[j]])
  }

  /** One round turns order by h bytes into order by 2h bytes. */
  lemma RoundDoubles(b: seq<Byte>, rank: seq<int>, eclass: seq<int>, fmap: seq<int>, bh: seq<bool>, h: nat)
    requires Represents(b, rank, h) && Ahead(b, rank, eclass, h)
    requires Refined(rank, eclass, fmap, bh, |b|) && bh[0]
    ensures Bucketed(b, fmap, bh, 2 * h)
  {
    assert b != [] && |rank| == |b|;
    hide Represents, Ahead;
    forall i, j | 0 <= i && j == i + 1 < |b|
      ensures !Less(b, fmap[j], fmap[i], 2 * h) && (bh[j] <==> !Same(b, fmap[i], fmap[j], 2 * h))
    {
      Doubling(b, rank, eclass, h, fmap[j], fmap[i]);
      Doubling(b, rank, eclass, h, fmap[i], fmap[j]);
    }
  }

  /** Sorted by at least n bytes, or by enough that all classes are single:
      the rotations are sorted. */
  lemma RoundsSuffice(b: seq<Byte>, fmap: seq<int>, bh: seq<bool>, h: nat)
    requires Bucketed(b, fmap, bh, h)
    requires h >= |b| || forall i :: 0 <= i < |b| ==> bh[i]
    ensures SortedRotations(b, fmap)
  {
    forall i, j | 0 <= i < j < |fmap| ensures !RotLess(b, fmap[j], fmap[i]) {
      Classes(b, fmap, bh, h, i, j);
      if h >= |b| {
        WholeOrder(b, fmap[j], fmap[i], h);
      } else {
        assert StartOf(bh, i) == i && StartOf(bh, j) == j;
        Trichotomy(b, fmap[i], fmap[j], h);
        LessLonger(b, fmap[i], fmap[j], h, |b|);
        Trichotomy(b, fmap[i], fmap[j], |b|);
      }
    }
  }
}
