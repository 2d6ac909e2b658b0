/** The cyclic rotations of a block and their lexicographic order. */
module Rotations {
  import opened Permutations

  type Byte = x: int | 0 <= x < 256

  /** Position i counted around a block of n bytes. */
  function Wrap(n: nat, i: nat): (r: nat)
    requires n > 0
    ensures r < n
    decreases i
  {
    if i < n then i else Wrap(n, i - n)
  }

  lemma {:induction false} WrapAdd(n: nat, i: nat, k: nat)
    requires n > 0
    ensures Wrap(n, Wrap(n, i) + k) == Wrap(n, i + k)
    decreases i
  {
    if i >= n {
      WrapAdd(n, i - n, k);
    }
  }

  function At(b: seq<Byte>, i: nat): Byte
    requires b != []
  {
    b[Wrap(|b|, i)]
  }

  /** The rotations starting at i and j agree on their first h bytes. */
  predicate Same(b: seq<Byte>, i: nat, j: nat, h: nat)
    requires b != []
    decreases h
  {
    h == 0 || (At(b, i) == At(b, j) && Same(b, i + 1, j + 1, h - 1))
  }

  /** On the first h bytes, the rotation at i comes before the one at j. */
  predicate Less(b: seq<Byte>, i: nat, j: nat, h: nat)
    requires b != []
    decreases h
  {
    h != 0 && (At(b, i) < At(b, j) || (At(b, i) == At(b, j) && Less(b, i + 1, j + 1, h - 1)))
  }

  // ----- laws of the order -------------------------------------------------

  lemma {:induction false} Trichotomy(b: seq<Byte>, i: nat, j: nat, h: nat)
    requires b != []
    ensures Same(b, i, j, h) <==> !Less(b, i, j, h) && !Less(b, j, i, h)
    ensures !(Less(b, i, j, h) && Less(b, j, i, h))
    ensures Same(b, i, j, h) <==> Same(b, j, i, h)
    decreases h
  {
    if h != 0 {
      Trichotomy(b, i + 1, j + 1, h - 1);
    }
  }

  lemma {:induction false} Transitivity(b: seq<Byte>, i: nat, j: nat, k: nat, h: nat)
    requires b != []
    requires !Less(b, j, i, h) && !Less(b, k, j, h)
    ensures !Less(b, k, i, h)
    ensures Same(b, i, k, h) <==> Same(b, i, j, h) && Same(b, j, k, h)
    decreases h
  {
    if h != 0 && At(b, i) == At(b, j) == At(b, k) {
      Transitivity(b, i + 1, j + 1, k + 1, h - 1);
    }
  }

  /** Comparing h1 + h2 bytes is comparing h1, then h2 more. */
  lemma {:induction false} Split(b: seq<Byte>, i: nat, j: nat, h1: nat, h2: nat)
    requires b != []
    ensures Same(b, i, j, h1 + h2) <==> Same(b, i, j, h1) && Same(b, i + h1, j + h1, h2)
    ensures Less(b, i, j, h1 + h2) <==> Less(b, i, j, h1) || (Same(b, i, j, h1) && Less(b, i + h1, j + h1, h2))
    decreases h1
  {
    if h1 != 0 {
      Split(b, i + 1, j + 1, h1 - 1, h2);
    }
  }

  lemma AtWrap(b: seq<Byte>, i: nat)
    requires b != []
    ensures At(b, Wrap(|b|, i)) == At(b, i)
    ensures Wrap(|b|, Wrap(|b|, i) + 1) == Wrap(|b|, i + 1)
  {
    WrapAdd(|b|, i, 0);
    WrapAdd(|b|, i, 1);
  }

  /** Positions matter only modulo the block length. */
  lemma {:induction false} Around(b: seq<Byte>, i: nat, j: nat, h: nat)
    requires b != []
    ensures Same(b, i, j, h) <==> Same(b, Wrap(|b|, i), Wrap(|b|, j), h)
    ensures Less(b, i, j, h) <==> Less(b, Wrap(|b|, i), Wrap(|b|, j), h)
    decreases h
  {
    hide At, Wrap;
    if h != 0 {
      AtWrap(b, i);
      AtWrap(b, j);
      Around(b, i + 1, j + 1, h - 1);
      Around(b, Wrap(|b|, i) + 1, Wrap(|b|, j) + 1, h - 1);
    }
  }

  lemma {:induction false} SameAt(b: seq<Byte>, i: nat, j: nat, h: nat, t: nat)
    requires b != [] && Same(b, i, j, h) && t < h
    ensures At(b, i + t) == At(b, j + t)
    decreases h
  {
    if t != 0 {
      SameAt(b, i + 1, j + 1, h - 1, t - 1);
    }
  }

  /** Rotations that agree all the way round agree forever. */
  lemma {:induction false} SameForever(b: seq<Byte>, i: nat, j: nat, h: nat)
    requires b != [] && Same(b, i, j, |b|)
    ensures Same(b, i, j, h)
    decreases h
  {
    if h != 0 {
      SameAt(b, i, j, |b|, 0);
      SameStep(b, i, j);
      SameForever(b, i + 1, j + 1, h - 1);
    }
  }

  lemma SameStep(b: seq<Byte>, i: nat, j: nat)
    requires b != [] && Same(b, i, j, |b|)
    ensures Same(b, i + 1, j + 1, |b|)
  {
    var n := |b|;
    Split(b, i + 1, j + 1, n - 1, 1);
    assert Same(b, i + n, j + n, 1) by {
      assert Wrap(n, i + n) == Wrap(n, i) && Wrap(n, j + n) == Wrap(n, j);
      assert At(b, i + n) == At(b, j + n);
    }
  }

  /** One byte, repeated. */
  predicate Uniform(b: seq<Byte>) {
    b != [] && forall x :: 0 <= x < |b| ==> b[x] == b[0]
  }

  /** In a block of one repeated byte all rotations are equal. */
  lemma {:induction false} AllSame(b: seq<Byte>, c: Byte, i: nat, j: nat, h: nat)
    requires b != [] && forall k :: 0 <= k < |b| ==> b[k] == c
    ensures Same(b, i, j, h)
    decreases h
  {
    if h > 0 {
      AllSame(b, c, i + 1, j + 1, h - 1);
    }
  }

  /** The order of whole rotations: comparing at least n bytes. */
  lemma WholeOrder(b: seq<Byte>, i: nat, j: nat, h: nat)
    requires b != [] && h >= |b|
    ensures Less(b, i, j, h) <==> Less(b, i, j, |b|)
    ensures Same(b, i, j, h) <==> Same(b, i, j, |b|)
  {
    Split(b, i, j, |b|, h - |b|);
    if Same(b, i, j, |b|) {
      SameForever(b, i, j, h);
      Trichotomy(b, i, j, h);
      Trichotomy(b, i, j, |b|);
    }
  }

  lemma LessLonger(b: seq<Byte>, i: nat, j: nat, h: nat, h': nat)
    requires b != [] && Less(b, i, j, h) && h <= h'
    ensures Less(b, i, j, h')
  {
    Split(b, i, j, h, h' - h);
  }

  /** Whole rotations in order. */
  predicate RotLess(b: seq<Byte>, i: nat, j: nat)
    requires b != []
  {
    Less(b, i, j, |b|)
  }

  /** `order` lists every rotation once, in non-decreasing order. */
  ghost predicate SortedRotations(b: seq<Byte>, order: seq<int>)
  {
    && |order| == |b| && IsPerm(order)
    && forall i, j :: 0 <= i < j < |order| ==> b != [] && !RotLess(b, order[j], order[i])
  }
}
