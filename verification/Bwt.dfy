/** The block transform and why walking the decoder's vector undoes it, for
    every sorted order of the rotations, ties included. */
module Bwt {
  import opened Permutations
  import opened Rotations
  import opened Radix

  /** The place before x around a block of n. */
  function Prev(n: nat, x: int): int {
    if x - 1 < 0 then x - 1 + n else x - 1
  }

  /** The last byte of every rotation, in sorted order. */
  function LastColumn(b: seq<Byte>, order: seq<int>): (l: seq<Byte>)
    requires |order| == |b| && IsPerm(order)
    ensures |l| == |b|
  {
    seq(|b|, i requires 0 <= i < |b| => b[Prev(|b|, order[i])])
  }

  /** Where a stable counting sort puts entry i of l. */
  function Stable(l: seq<int>, i: nat): int
    requires i < |l|
  {
    Smaller(l, l[i], |l|) + Count(l, l[i], i)
  }

  /** next lists the positions of l in the order of a stable sort. */
  ghost predicate IsNext(l: seq<int>, next: seq<int>) {
    && |next| == |l| && IsPerm(next)
    && forall i :: 0 <= i < |l| ==> 0 <= Stable(l, i) < |l| && next[Stable(l, i)] == i
  }

  lemma StableRange(l: seq<int>, i: nat)
    requires i < |l|
    ensures Smaller(l, l[i], |l|) <= Stable(l, i) < UpTo(l, l[i], |l|) <= |l|
  {
    SmallerNext(l, l[i], |l|);
    CountMonotone(l, l[i], i, |l|);
    SmallerBound(l, l[i] + 1, |l|);
  }

  lemma StableOrder(l: seq<int>, i: nat, j: nat)
    requires i < |l| && j < |l| && Stable(l, i) < Stable(l, j)
    ensures l[i] < l[j] || (l[i] == l[j] && i < j)
  {
    StableRange(l, i);
    StableRange(l, j);
    if l[j] < l[i] {
      UpToMonotone(l, l[j], l[i], |l|);
    } else if l[i] == l[j] && j <= i {
      CountMonotone(l, l[i], j, i);
    }
  }

  lemma StableInjective(l: seq<int>, i: nat, j: nat)
    requires i < j < |l|
    ensures Stable(l, i) != Stable(l, j)
  {
    StableRange(l, i);
    StableRange(l, j);
    if l[i] == l[j] {
      CountMonotone(l, l[i], i, j);
    } else if l[i] < l[j] {
      UpToMonotone(l, l[i], l[j], |l|);
    } else {
      UpToMonotone(l, l[j], l[i], |l|);
    }
  }

  /** next and Stable are inverse to each other. */
  lemma NextStable(l: seq<int>, next: seq<int>, j: nat)
    requires IsNext(l, next) && j < |l|
    ensures 0 <= next[j] < |l| && Stable(l, next[j]) == j
  {
    assert next[Stable(l, next[j])] == next[j];
  }

  // ----- two sorted lists of the same rotations ----------------------------

  lemma NoneSmaller(b: seq<Byte>, p: seq<int>, q: seq<int>, j: nat)
    requires SortedRotations(b, p) && SortedRotations(b, q) && j < |b|
    ensures !RotLess(b, p[j], q[j])
  {
    if RotLess(b, p[j], q[j]) {
      forall x | x in Entries(p, j + 1) ensures x in Entries(q, j) {
        var k :| 0 <= k <= j && p[k] == x;
        var m := Where(q, x);
        EarlierThan(b, p, q, j, k, m);
      }
      EntriesCount(p, j + 1);
      EntriesCount(q, j);
      SubsetSize(Entries(p, j + 1), Entries(q, j));
    }
  }

  lemma EarlierThan(b: seq<Byte>, p: seq<int>, q: seq<int>, j: nat, k: nat, m: nat)
    requires SortedRotations(b, p) && SortedRotations(b, q) && k <= j < |b| && m < |b| && q[m] == p[k]
    requires RotLess(b, p[j], q[j])
    ensures m < j
  {
    if m >= j {
      SelfNotLess(b, p[j]);
      SelfNotLess(b, q[j]);
      assert !RotLess(b, p[j], p[k]);
      assert !RotLess(b, q[m], q[j]);
      Transitivity(b, q[j], p[k], p[j], |b|);
    }
  }

  lemma SelfNotLess(b: seq<Byte>, i: nat)
    requires b != []
    ensures !RotLess(b, i, i)
  {
    Trichotomy(b, i, i, |b|);
  }

  /** Any two sorted orders agree place by place, up to equal rotations. */
  lemma SortedAgree(b: seq<Byte>, p: seq<int>, q: seq<int>, j: nat)
    requires SortedRotations(b, p) && SortedRotations(b, q) && j < |b|
    ensures Same(b, p[j], q[j], |b|)
  {
    NoneSmaller(b, p, q, j);
    NoneSmaller(b, q, p, j);
    Trichotomy(b, p[j], q[j], |b|);
  }

  lemma PrevAt(b: seq<Byte>, x: nat)
    requires x < |b|
    ensures b[Prev(|b|, x)] == At(b, x + |b| - 1)
  {
    if x > 0 {
      assert Wrap(|b|, x + |b| - 1) == Wrap(|b|, x - 1);
    }
  }

  /** The transformed block does not depend on which sort produced the order. */
  lemma LastColumnUnique(b: seq<Byte>, p: seq<int>, q: seq<int>)
    requires SortedRotations(b, p) && SortedRotations(b, q)
    ensures LastColumn(b, p) == LastColumn(b, q)
  {
    forall j | 0 <= j < |b| ensures b[Prev(|b|, p[j])] == b[Prev(|b|, q[j])] {
      SortedAgree(b, p, q, j);
      SameAt(b, p[j], q[j], |b|, |b| - 1);
      PrevAt(b, p[j]);
      PrevAt(b, q[j]);
    }
  }

  // ----- where the block itself ends up ------------------------------------

  lemma OriginUnique(b: seq<Byte>, p: seq<int>, q: seq<int>, o: nat)
    requires b != [] && SortedRotations(b, p) && SortedRotations(b, q) && o < |b| && q[o] == 0
    requires forall x :: 0 < x < |b| ==> !Same(b, 0, x, |b|)
    ensures p[o] == 0
  {
    SortedAgree(b, q, p, o);
  }

  /** Two equal rotations may trade places. */
  lemma Traded(b: seq<Byte>, p: seq<int>, i: nat, j: nat)
    requires SortedRotations(b, p) && i < |b| && j < |b| && i != j && Same(b, p[i], p[j], |b|)
    ensures SortedRotations(b, p[i := p[j]][j := p[i]])
  {
    hide Same, RotLess, SortedRotations, IsPerm;
    OrderRange(b, p);
    var q := p[i := p[j]][j := p[i]];
    forall k, m | 0 <= k < m < |b| ensures q[k] != q[m] && !RotLess(b, q[m], q[k]) {
      TradedPair(b, p, i, j, k, m);
    }
    PairsSorted(b, q);
  }

  lemma OrderRange(b: seq<Byte>, p: seq<int>)
    requires SortedRotations(b, p)
    ensures |p| == |b| && forall k :: 0 <= k < |b| ==> 0 <= p[k] < |b|
  {
  }

  lemma PairsSorted(b: seq<Byte>, q: seq<int>)
    requires b != [] && |q| == |b| && forall k :: 0 <= k < |b| ==> 0 <= q[k] < |b|
    requires forall k, m :: 0 <= k < m < |b| ==> q[k] != q[m] && !RotLess(b, q[m], q[k])
    ensures SortedRotations(b, q)
  {
  }

  lemma TradedPair(b: seq<Byte>, p: seq<int>, i: nat, j: nat, k: nat, m: nat)
    requires SortedRotations(b, p) && i < |b| && j < |b| && i != j && Same(b, p[i], p[j], |b|) && k < m < |b|
    ensures var q := p[i := p[j]][j := p[i]]; q[k] != q[m] && !RotLess(b, q[m], q[k])
  {
    Trichotomy(b, p[i], p[j], |b|);
    hide Same, RotLess;
    var k', m' := if k == i then j else if k == j then i else k, if m == i then j else if m == j then i else m;
    InOrder(b, p, k, m, k', m');
    assert k' != m';
  }

  lemma InOrder(b: seq<Byte>, p: seq<int>, k: nat, m: nat, k': nat, m': nat)
    requires SortedRotations(b, p) && k < m < |b| && k' < |b| && m' < |b|
    requires Same(b, p[k], p[k'], |b|) || k == k'
    requires Same(b, p[m], p[m'], |b|) || m == m'
    ensures !RotLess(b, p[m'], p[k'])
  {
    Trichotomy(b, p[k], p[k'], |b|);
    Trichotomy(b, p[m], p[m'], |b|);
    SelfNotLess(b, p[k]);
    SelfNotLess(b, p[m]);
    Transitivity(b, p[k'], p[k], p[m], |b|);
    Transitivity(b, p[k'], p[m], p[m'], |b|);
  }

  lemma AnotherOrigin(b: seq<Byte>, p: seq<int>, x: nat) returns (q: seq<int>, o: nat)
    requires SortedRotations(b, p) && 0 < x < |b| && Same(b, 0, x, |b|)
    ensures SortedRotations(b, q) && o < |b| && q[o] == 0 && p[o] != 0
  {
    var i, j := Where(p, 0), Where(p, x);
    Traded(b, p, i, j);
    q, o := p[i := p[j]][j := p[i]], j;
  }

  /** The block differs from all its other rotations. */
  ghost predicate Primitive(b: seq<Byte>) {
    b != [] && forall x :: 0 < x < |b| ==> !Same(b, 0, x, |b|)
  }

  /** The block itself is where every sorted order has it. */
  ghost predicate OriginFixed(b: seq<Byte>, p: seq<int>)
    requires |p| == |b|
  {
    forall q: seq<int>, o: nat :: SortedRotations(b, q) && o < |b| && q[o] == 0 ==> p[o] == 0
  }

  /** All sorted orders have the block itself in the same place exactly when it
      differs from its other rotations. */
  lemma OriginDetermined(b: seq<Byte>, p: seq<int>)
    requires b != [] && SortedRotations(b, p)
    ensures OriginFixed(b, p) <==> Primitive(b)
  {
    if Primitive(b) {
      forall q: seq<int>, o: nat | SortedRotations(b, q) && o < |b| && q[o] == 0 ensures p[o] == 0 {
        OriginUnique(b, p, q, o);
      }
    } else {
      var x :| 0 < x < |b| && Same(b, 0, x, |b|);
      var q, o := AnotherOrigin(b, p, x);
      assert SortedRotations(b, q) && q[o] == 0 && p[o] != 0;
      assert !OriginFixed(b, p);
    }
  }

  // ----- one step of the walk ----------------------------------------------

  /** The rotations one place further back, in the order of their first byte. */
  ghost function Stepped(b: seq<Byte>, order: seq<int>, next: seq<int>): (q: seq<int>)
    requires |order| == |b| == |next| && IsPerm(order) && IsPerm(next)
    ensures |q| == |b| && forall j :: 0 <= j < |b| ==> q[j] == Prev(|b|, order[next[j]])
  {
    seq(|b|, j requires 0 <= j < |b| => Prev(|b|, order[next[j]]))
  }

  lemma FirstByteThenRest(b: seq<Byte>, x: nat, y: nat)
    requires x < |b| && y < |b|
    ensures var p, q := Prev(|b|, x), Prev(|b|, y);
      Less(b, p, q, |b|) <==> b[p] < b[q] || (b[p] == b[q] && Less(b, x, y, |b| - 1))
  {
    var n := |b|;
    var p, q := Prev(n, x), Prev(n, y);
    assert At(b, p) == b[p] && At(b, q) == b[q];
    Around(b, p + 1, q + 1, n - 1);
    assert Wrap(n, p + 1) == x && Wrap(n, q + 1) == y;
  }

  lemma SteppedSorted(b: seq<Byte>, order: seq<int>, next: seq<int>)
    requires SortedRotations(b, order) && b != [] && IsNext(LastColumn(b, order), next)
    ensures SortedRotations(b, Stepped(b, order, next))
  {
    var n, l, q := |b|, LastColumn(b, order), Stepped(b, order, next);
    forall j, k | 0 <= j < k < n ensures q[j] != q[k] && !RotLess(b, q[k], q[j]) {
      SteppedPair(b, order, next, j, k);
    }
  }

  lemma SteppedPair(b: seq<Byte>, order: seq<int>, next: seq<int>, j: nat, k: nat)
    requires SortedRotations(b, order) && IsNext(LastColumn(b, order), next) && j < k < |b|
    ensures var q := Stepped(b, order, next); q[j] != q[k] && !RotLess(b, q[k], q[j])
  {
    var n, l := |b|, LastColumn(b, order);
    var i, m := next[j], next[k];
    NextStable(l, next, j);
    NextStable(l, next, k);
    StableOrder(l, i, m);
    FirstByteThenRest(b, order[m], order[i]);
    if l[i] == l[m] && Less(b, order[m], order[i], n - 1) {
      LessLonger(b, order[m], order[i], n - 1, n);
      assert false;
    }
  }

  lemma ShiftSame(b: seq<Byte>, x: nat, y: nat)
    requires x < |b| && y < |b| && Same(b, Prev(|b|, x), y, |b|)
    ensures Same(b, x, y + 1, |b|)
  {
    var n, p := |b|, Prev(|b|, x);
    SameStep(b, p, y);
    Around(b, p + 1, y + 1, n);
    Around(b, x, y + 1, n);
    assert Wrap(n, p + 1) == x == Wrap(n, x);
  }

  lemma SteppedAgrees(b: seq<Byte>, order: seq<int>, next: seq<int>, j: nat)
    requires SortedRotations(b, order) && IsNext(LastColumn(b, order), next) && j < |b|
    ensures 0 <= next[j] < |b| && 0 <= order[next[j]] < |b| && 0 <= order[j] < |b|
    ensures Same(b, Prev(|b|, order[next[j]]), order[j], |b|)
  {
    SteppedSorted(b, order, next);
    hide Same, LastColumn;
    SortedAgree(b, Stepped(b, order, next), order, j);
  }

  /** One step of the walk goes to a rotation equal to the next one along. */
  lemma NextRotation(b: seq<Byte>, order: seq<int>, next: seq<int>, j: nat)
    requires SortedRotations(b, order) && IsNext(LastColumn(b, order), next) && j < |b|
    ensures 0 <= next[j] < |b| && Same(b, order[next[j]], order[j] + 1, |b|)
  {
    var x, y := order[next[j]], order[j];
    hide *;
    SteppedAgrees(b, order, next, j);
    ShiftSame(b, x, y);
  }

  // ----- the walk ----------------------------------------------------------

  /** The row after t steps from row o. */
  function Row(next: seq<int>, o: int, t: nat): (r: int)
    requires IsPerm(next) && 0 <= o < |next|
    ensures 0 <= r < |next|
  {
    if t == 0 then o else next[Row(next, o, t - 1)]
  }

  /** After t steps from the row of the block itself: the rotation t along. */
  lemma {:induction false} RowIs(b: seq<Byte>, order: seq<int>, next: seq<int>, o: int, t: nat)
    requires SortedRotations(b, order) && IsNext(LastColumn(b, order), next) && 0 <= o < |b| && order[o] == 0
    ensures Same(b, order[Row(next, o, t)], t, |b|)
  {
    if t == 0 {
      Trichotomy(b, 0, 0, |b|);
    } else {
      var r := Row(next, o, t - 1);
      RowIs(b, order, next, o, t - 1);
      NextRotation(b, order, next, r);
      SameStep(b, order[r], t - 1);
      Trichotomy(b, order[next[r]], order[r] + 1, |b|);
      Trichotomy(b, order[r] + 1, t, |b|);
      Transitivity(b, order[next[r]], order[r] + 1, t, |b|);
    }
  }

  lemma ByteBefore(b: seq<Byte>, x: nat, t: nat)
    requires x < |b| && Same(b, x, t + 1, |b|)
    ensures b[Prev(|b|, x)] == At(b, t)
  {
    var n := |b|;
    SameAt(b, x, t + 1, n, n - 1);
    PrevAt(b, x);
    assert Wrap(n, t + n) == Wrap(n, t);
  }

  /** The walk reads the block, over and over: the byte fetched at step t is
      byte t. */
  lemma WalkReadsBlock(b: seq<Byte>, order: seq<int>, next: seq<int>, o: int, t: nat)
    requires SortedRotations(b, order) && IsNext(LastColumn(b, order), next) && 0 <= o < |b| && order[o] == 0
    ensures LastColumn(b, order)[Row(next, o, t + 1)] == At(b, t)
  {
    RowIs(b, order, next, o, t + 1);
    hide Same, Row;
    ByteBefore(b, order[Row(next, o, t + 1)], t);
  }
}
