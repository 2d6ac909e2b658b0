/** What joining keeps about cost: whatever other lengths one would give the
    leaves, the trees so far and some lengths for their roots cost no more. */
module HuffmanCheap {
  import opened Arithmetic
  import opened HuffmanTree
  import opened HuffmanForest
  import opened Codes
  import HC = HuffmanCost

  /** Lengths for m symbols that satisfy the Kraft inequality. */
  ghost predicate KraftAt(other: seq<nat>, m: nat, limit: nat) {
    |other| == m && (forall k :: 0 <= k < m ==> other[k] <= limit) && KraftSum(other, limit, m) <= Pow2(limit)
  }

  /** What the first i leaves cost with these lengths. */
  function CodeCost(leaf: seq<int>, lens: seq<nat>, i: nat): int
    requires i <= |lens| && i < |leaf|
  {
    if i == 0 then 0 else CodeCost(leaf, lens, i - 1) + leaf[i] * lens[i - 1]
  }

  /** What they cost with their depths in the trees. */
  ghost function DepthCost(parent: seq<int>, n: nat, leaf: seq<int>, i: nat): int
    requires Forest(parent, n) && i <= n && i < |leaf|
  {
    if i == 0 then 0 else DepthCost(parent, n, leaf, i - 1) + leaf[i] * DepthOf(parent, n, i)
  }

  /** The roots, as entries that count. */
  ghost function OnOf(parent: seq<int>, n: nat): (on: seq<bool>)
    ensures |on| == |parent| && forall k :: 0 <= k < |parent| ==> on[k] == IsRoot(parent, n, k)
  {
    seq(|parent|, k requires 0 <= k < |parent| => IsRoot(parent, n, k))
  }

  ghost function WeightsOf(weight: seq<int>): (w: seq<int>)
    ensures |w| == |weight| && forall k :: 0 <= k < |weight| ==> w[k] == WeightOf(weight[k])
  {
    seq(|weight|, k requires 0 <= k < |weight| => WeightOf(weight[k]))
  }

  /** Lengths for the roots that do no worse than the other lengths. */
  ghost predicate Spares(parent: seq<int>, n: nat, m: nat, weight: seq<int>, leaf: seq<int>, other: seq<nat>,
      limit: nat, l: seq<nat>) {
    && Forest(parent, n) && m <= n && |leaf| == m + 1 && |other| == m && |l| == |parent| == |weight|
    && HC.Fits(OnOf(parent, n), l, limit)
    && HC.Cost(OnOf(parent, n), WeightsOf(weight), l) + DepthCost(parent, n, leaf, m) <= CodeCost(leaf, other, m)
  }

  ghost predicate Cheap(parent: seq<int>, n: nat, m: nat, weight: seq<int>, leaf: seq<int>) {
    forall other: seq<nat>, limit: nat :: KraftAt(other, m, limit) ==>
      exists l: seq<nat> :: Spares(parent, n, m, weight, leaf, other, limit, l)
  }

  // ----- leaves alone ------------------------------------------------------

  /** The other lengths themselves. */
  ghost function Spread(other: seq<nat>, size: nat): (l: seq<nat>)
    ensures |l| == size && forall k :: 0 <= k < size ==> l[k] == if 1 <= k <= |other| then other[k - 1] else 0
  {
    seq(size, k requires 0 <= k < size => if 1 <= k <= |other| then other[k - 1] else 0)
  }

  lemma {:induction false} LeafShares(parent: seq<int>, m: nat, other: seq<nat>, limit: nat, i: nat)
    requires m < |parent| && KraftAt(other, m, limit) && i < |parent| && forall k :: 1 <= k <= m ==> parent[k] == ROOT
    ensures HC.Sum(HC.Shares(OnOf(parent, m), Spread(other, |parent|), limit), i + 1) ==
      KraftSum(other, limit, if i < m then i else m)
  {
    hide Pow2;
    var s := HC.Shares(OnOf(parent, m), Spread(other, |parent|), limit);
    if i == 0 {
      assert HC.Sum(s, 0) == 0 && s[0] == 0;
      assert HC.Sum(s, 1) == HC.Sum(s, 0) + s[0];
    } else {
      LeafShares(parent, m, other, limit, i - 1);
      if i <= m {
        assert s[i] == Pow2(limit - other[i - 1]);
      }
    }
  }

  lemma {:induction false} LeafCosts(parent: seq<int>, m: nat, weight: seq<int>, leaf: seq<int>, other: seq<nat>,
      i: nat)
    requires m < |parent| == |weight| && |other| == m && |leaf| == m + 1 && i < |parent|
      && (forall k :: 1 <= k <= m ==> parent[k] == ROOT && weight[k] == 256 * leaf[k])
    ensures HC.Sum(HC.Costs(OnOf(parent, m), WeightsOf(weight), Spread(other, |parent|)), i + 1) ==
      CodeCost(leaf, other, if i < m then i else m)
  {
    var s := HC.Costs(OnOf(parent, m), WeightsOf(weight), Spread(other, |parent|));
    if i == 0 {
      assert HC.Sum(s, 0) == 0 && s[0] == 0;
      assert HC.Sum(s, 1) == HC.Sum(s, 0) + s[0];
    } else {
      LeafCosts(parent, m, weight, leaf, other, i - 1);
      if i <= m {
        assert WeightOf(weight[i]) == leaf[i];
        assert s[i] == leaf[i] * other[i - 1];
      }
    }
  }

  lemma {:induction false} NoDepth(parent: seq<int>, m: nat, leaf: seq<int>, i: nat)
    requires Forest(parent, m) && i <= m && i < |leaf| && forall k :: 1 <= k <= m ==> parent[k] == ROOT
    ensures DepthCost(parent, m, leaf, i) == 0
  {
    if i > 0 {
      NoDepth(parent, m, leaf, i - 1);
    }
  }

  lemma LeavesCheap(parent: seq<int>, m: nat, weight: seq<int>, leaf: seq<int>)
    requires m < |parent| == |weight| && |leaf| == m + 1
      && (forall k :: 1 <= k <= m ==> parent[k] == ROOT && weight[k] == 256 * leaf[k])
    ensures Cheap(parent, m, m, weight, leaf)
  {
    forall other: seq<nat>, limit: nat | KraftAt(other, m, limit)
      ensures exists l: seq<nat> :: Spares(parent, m, m, weight, leaf, other, limit, l)
    {
      var l := Spread(other, |parent|);
      LeafShares(parent, m, other, limit, |parent| - 1);
      LeafCosts(parent, m, weight, leaf, other, |parent| - 1);
      NoDepth(parent, m, leaf, m);
      assert Spares(parent, m, m, weight, leaf, other, limit, l);
    }
  }

  // ----- one joining -------------------------------------------------------

  /** Every leaf under the new root lies one deeper. */
  lemma {:induction false} JoinedDepths(parent: seq<int>, n: nat, m: nat, leaf: seq<int>, x: nat, y: nat, i: nat)
    requires Forest(parent, n) && i <= m <= n && |leaf| == m + 1 && n + 1 < |parent| && IsRoot(parent, n, x)
      && IsRoot(parent, n, y)
    ensures var p := Joined(parent, n, x, y);
      DepthCost(p, n + 1, leaf, i) == DepthCost(parent, n, leaf, i) + Under(leaf, Roots(p, n + 1, m), n + 1, i)
  {
    if i > 0 {
      JoinedDepths(parent, n, m, leaf, x, y, i - 1);
      JoinedWalk(parent, n, x, y, i);
      OneDeeper(leaf[i], DepthOf(parent, n, i));
    }
  }

  lemma OneDeeper(v: int, d: int)
    ensures v * (d + 1) == v * d + v
  {
  }

  lemma JoinedEntries(parent: seq<int>, n: nat, weight: seq<int>, x: nat, y: nat)
    requires Forest(parent, n) && n + 1 < |parent| == |weight| && IsRoot(parent, n, x) && IsRoot(parent, n, y)
      && HeightOf(weight[x]) < 255 && HeightOf(weight[y]) < 255
    ensures OnOf(Joined(parent, n, x, y), n + 1) == OnOf(parent, n)[x := false][y := false][n + 1 := true]
    ensures WeightsOf(weight[n + 1 := AddWeights(weight[x], weight[y])]) ==
      WeightsOf(weight)[n + 1 := WeightsOf(weight)[x] + WeightsOf(weight)[y]]
  {
    AddedParts(weight[x], weight[y]);
    var z := n + 1;
    var p := Joined(parent, n, x, y);
    var a, b := OnOf(p, z), OnOf(parent, n)[x := false][y := false][z := true];
    forall k | 0 <= k < |parent| ensures a[k] == b[k] {
      JoinedRoots(parent, n, x, y, k);
    }
    assert |p| == |parent|;
  }

  lemma RootsWeighted(parent: seq<int>, n: nat, weight: seq<int>, heavy: seq<int>, x: nat, y: nat)
    requires Balanced(parent, n, weight, heavy) && |parent| == |weight|
      && HuffmanForest.Lightest(parent, n, weight, x, y)
    ensures HC.Weighted(OnOf(parent, n), WeightsOf(weight)) && HC.Lightest(OnOf(parent, n), WeightsOf(weight), x, y)
  {
    hide Fib, WeightOf, HeightOf;
    forall k | 0 <= k < |parent| && IsRoot(parent, n, k) ensures WeightOf(weight[k]) >= 0 {
      TallPositive(weight[k], heavy[k]);
    }
  }

  lemma UnderNew(parent: seq<int>, n: nat, m: nat, weight: seq<int>, leaf: seq<int>, x: nat, y: nat)
    requires Forest(parent, n) && m <= n && Adds(parent, n, m, weight, leaf) && n + 1 < |parent|
      && IsRoot(parent, n, x) && IsRoot(parent, n, y) && x != y
    ensures Under(leaf, Roots(Joined(parent, n, x, y), n + 1, m), n + 1, m) == WeightOf(weight[x]) + WeightOf(weight[y])
  {
    RootsJoined(parent, n, m, x, y);
    UnderJoined(leaf, Roots(parent, n, m), Roots(Joined(parent, n, x, y), n + 1, m), x, y, n + 1, m);
  }

  lemma JoinSpares(parent: seq<int>, n: nat, m: nat, weight: seq<int>, heavy: seq<int>, leaf: seq<int>, x: nat, y: nat,
      other: seq<nat>, limit: nat, l: seq<nat>) returns (l': seq<nat>)
    requires Grown(parent, n, m, weight, heavy, leaf) && HuffmanForest.Lightest(parent, n, weight, x, y)
    requires n + 1 < |parent| == |weight| && HeightOf(weight[x]) < 255 && HeightOf(weight[y]) < 255
    requires Spares(parent, n, m, weight, leaf, other, limit, l)
    ensures Spares(Joined(parent, n, x, y), n + 1, m, weight[n + 1 := AddWeights(weight[x], weight[y])], leaf, other,
      limit, l')
  {
    hide Balanced, Whole, Within, Adds, Joined, AddWeights, HC.Fits, HC.Cost, WeightOf, HeightOf, HC.Weighted,
      HC.Lightest;
    RootsWeighted(parent, n, weight, heavy, x, y);
    LightestRoots(parent, n, weight, x, y);
    JoinedEntries(parent, n, weight, x, y);
    JoinedDepths(parent, n, m, leaf, x, y, m);
    UnderNew(parent, n, m, weight, leaf, x, y);
    JoinedSize(parent, n, x, y);
    l' := HC.Reduce(OnOf(parent, n), WeightsOf(weight), l, limit, x, y, n + 1);
  }

  lemma LightestRoots(parent: seq<int>, n: nat, weight: seq<int>, x: nat, y: nat)
    requires HuffmanForest.Lightest(parent, n, weight, x, y)
    ensures IsRoot(parent, n, x) && IsRoot(parent, n, y) && x != y
  {
  }

  lemma JoinedSize(parent: seq<int>, n: nat, x: nat, y: nat)
    requires Forest(parent, n) && 1 <= x <= n && 1 <= y <= n && n + 1 < |parent|
    ensures |Joined(parent, n, x, y)| == |parent|
  {
  }

  lemma JoinCheap(parent: seq<int>, n: nat, m: nat, weight: seq<int>, heavy: seq<int>, leaf: seq<int>, x: nat, y: nat)
    requires Grown(parent, n, m, weight, heavy, leaf) && HuffmanForest.Lightest(parent, n, weight, x, y)
      && Cheap(parent, n, m, weight, leaf)
    requires n + 1 < |parent| == |weight| && HeightOf(weight[x]) < 255 && HeightOf(weight[y]) < 255
    ensures Cheap(Joined(parent, n, x, y), n + 1, m, weight[n + 1 := AddWeights(weight[x], weight[y])], leaf)
  {
    var z := n + 1;
    var p, w := Joined(parent, n, x, y), weight[z := AddWeights(weight[x], weight[y])];
    hide Grown, HuffmanForest.Lightest, Joined, AddWeights, KraftAt, Spares;
    forall other: seq<nat>, limit: nat | KraftAt(other, m, limit)
      ensures exists l: seq<nat> :: Spares(p, z, m, w, leaf, other, limit, l)
    {
      var l: seq<nat> :| Spares(parent, n, m, weight, leaf, other, limit, l);
      var l' := JoinSpares(parent, n, m, weight, heavy, leaf, x, y, other, limit, l);
    }
  }

  // ----- the finished tree -------------------------------------------------

  lemma {:induction false} DepthIsCode(parent: seq<int>, n: nat, m: nat, leaf: seq<int>, lens: seq<nat>, i: nat)
    requires Forest(parent, n) && i <= m <= n && |leaf| == m + 1 && |lens| == m
      && forall k :: 1 <= k <= m ==> lens[k - 1] == DepthOf(parent, n, k)
    ensures DepthCost(parent, n, leaf, i) == CodeCost(leaf, lens, i)
  {
    if i > 0 {
      DepthIsCode(parent, n, m, leaf, lens, i - 1);
    }
  }

  /** The depths cost no more than any other lengths. */
  lemma DepthsCheapest(parent: seq<int>, n: nat, m: nat, weight: seq<int>, heavy: seq<int>, leaf: seq<int>,
      lens: seq<nat>, other: seq<nat>, limit: nat)
    requires Grown(parent, n, m, weight, heavy, leaf) && Cheap(parent, n, m, weight, leaf) && |leaf| == m + 1
    requires |lens| == m && (forall k :: 1 <= k <= m ==> lens[k - 1] == DepthOf(parent, n, k))
    requires KraftAt(other, m, limit)
    ensures CodeCost(leaf, lens, m) <= CodeCost(leaf, other, m)
  {
    hide Whole, Within, Adds, KraftAt;
    var l: seq<nat> :| Spares(parent, n, m, weight, leaf, other, limit, l);
    DepthIsCode(parent, n, m, leaf, lens, m);
    forall k | 0 <= k < |parent| && IsRoot(parent, n, k) ensures WeightOf(weight[k]) >= 0 {
      TallPositive(weight[k], heavy[k]);
    }
    HC.CostNotNegative(OnOf(parent, n), WeightsOf(weight), l);
  }

  /** The depths of all leaves under one root satisfy the Kraft inequality. */
  lemma {:induction false} SharesSum(parent: seq<int>, n: nat, m: nat, lens: seq<nat>, r: int, i: nat)
    requires Forest(parent, n) && i <= m <= n <= LIMIT && |lens| == m
      && (forall k :: 1 <= k <= m ==> lens[k - 1] == DepthOf(parent, n, k) && RootOf(parent, n, k) == r)
    ensures forall k :: 0 <= k < m ==> lens[k] <= LIMIT
    ensures Under(Shares(parent, n, m), Roots(parent, n, m), r, i) == KraftSum(lens, LIMIT, i)
  {
    hide Pow2, LIMIT;
    forall k | 0 <= k < m ensures lens[k] <= LIMIT {
      assert lens[(k + 1) - 1] == DepthOf(parent, n, k + 1);
    }
    if i > 0 {
      SharesSum(parent, n, m, lens, r, i - 1);
    }
  }

  // ----- in terms of frequencies -------------------------------------------

  /** What symbols with these frequencies cost. */
  function CostOf(f: seq<nat>, lens: seq<nat>, i: nat): nat
    requires i <= |lens| && i <= |f|
  {
    if i == 0 then 0 else CostOf(f, lens, i - 1) + f[i - 1] * lens[i - 1]
  }

  /** Prefix-free codes of these lengths exist, and no such codes cost less. */
  ghost predicate Optimal(lens: seq<nat>, f: seq<nat>) {
    && |lens| == |f| && (exists limit: nat :: KraftAt(lens, |f|, limit))
    && forall other: seq<nat>, limit: nat :: KraftAt(other, |f|, limit) ==>
        CostOf(f, lens, |f|) <= CostOf(f, other, |f|)
  }

  lemma {:induction false} CostsAgree(leaf: seq<int>, f: seq<nat>, lens: seq<nat>, i: nat)
    requires |leaf| == |f| + 1 && |lens| == |f| && i <= |f| && forall k :: 1 <= k <= |f| ==> leaf[k] == f[k - 1]
    ensures CodeCost(leaf, lens, i) == CostOf(f, lens, i)
  {
    if i > 0 {
      CostsAgree(leaf, f, lens, i - 1);
    }
  }

  lemma TreeOptimal(parent: seq<int>, n: nat, weight: seq<int>, heavy: seq<int>, leaf: seq<int>, f: seq<nat>,
      lens: seq<nat>, r: int)
    requires Grown(parent, n, |f|, weight, heavy, leaf) && Cheap(parent, n, |f|, weight, leaf)
    requires |leaf| == |f| + 1 && |lens| == |f|
    requires forall k :: 1 <= k <= |f| ==>
      leaf[k] == f[k - 1] && lens[k - 1] == DepthOf(parent, n, k) && RootOf(parent, n, k) == r
    requires IsRoot(parent, n, r)
    ensures Optimal(lens, f)
  {
    var m := |f|;
    hide Whole, Within, Adds, Balanced, Cheap, CodeCost, CostOf, Shares, Roots, Under, Pow2;
    SharesSum(parent, n, m, lens, r, m);
    WholeAt(parent, n, m, r);
    assert KraftAt(lens, m, LIMIT);
    forall other: seq<nat>, limit: nat | KraftAt(other, m, limit) ensures CostOf(f, lens, m) <= CostOf(f, other, m) {
      DepthsCheapest(parent, n, m, weight, heavy, leaf, lens, other, limit);
      CostsAgree(leaf, f, lens, m);
      CostsAgree(leaf, f, other, m);
    }
  }

  lemma WholeAt(parent: seq<int>, n: nat, m: nat, r: int)
    requires Forest(parent, n) && m <= n <= LIMIT && Whole(parent, n, m) && IsRoot(parent, n, r)
    ensures Under(Shares(parent, n, m), Roots(parent, n, m), r, m) == Pow2(LIMIT)
  {
  }
}
