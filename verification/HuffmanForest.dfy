/** What every joining of the two lightest roots keeps: the shares of the leaves
    under a root make up a whole, and tall trees are heavy. */
module HuffmanForest {
  import opened Arithmetic
  import opened HuffmanTree

  /** A weight carries the height of its tree in its low byte. */
  function WeightOf(w: int): int {
    w / 256
  }

  function HeightOf(w: int): nat {
    w % 256
  }

  function Max(a: int, b: int): int {
    if a > b then a else b
  }

  /** ADDWEIGHTS, for heights that stay below 256 */
  function AddWeights(a: int, b: int): int {
    256 * (WeightOf(a) + WeightOf(b)) + 1 + Max(HeightOf(a), HeightOf(b))
  }

  lemma AddedParts(a: int, b: int)
    requires HeightOf(a) < 255 && HeightOf(b) < 255
    ensures WeightOf(AddWeights(a, b)) == WeightOf(a) + WeightOf(b)
      && HeightOf(AddWeights(a, b)) == 1 + Max(HeightOf(a), HeightOf(b))
  {
  }

  predicate IsRoot(parent: seq<int>, n: nat, r: int) {
    1 <= r <= n < |parent| && parent[r] == ROOT
  }

  /** Every root is at least as heavy as the children of every other root, and a
      tree of height h weighs at least the Fibonacci number h + 2. */
  ghost predicate Balanced(parent: seq<int>, n: nat, weight: seq<int>, heavy: seq<int>) {
    && n < |parent| && n < |weight| && n < |heavy|
    && (forall r, x :: IsRoot(parent, n, r) && IsRoot(parent, n, x) && r != x ==> WeightOf(weight[x]) >= heavy[r])
    && (forall r :: IsRoot(parent, n, r) ==> Tall(weight[r], heavy[r]))
  }

  ghost predicate Tall(w: int, heavy: int) {
    WeightOf(w) >= Fib(HeightOf(w) + 2) && heavy >= 0 && (HeightOf(w) > 0 ==> heavy >= Fib(HeightOf(w) + 1))
  }

  /** No other root is lighter than x or y. */
  ghost predicate Lightest(parent: seq<int>, n: nat, weight: seq<int>, x: int, y: int) {
    && n < |weight| && IsRoot(parent, n, x) && IsRoot(parent, n, y) && x != y
    && forall r :: IsRoot(parent, n, r) && r != x && r != y ==> WeightOf(weight[r]) >= Max(WeightOf(weight[x]), WeightOf(weight[y]))
  }

  lemma JoinTall(wx: int, hx: int, wy: int, hy: int)
    requires Tall(wx, hx) && Tall(wy, hy) && WeightOf(wx) >= hy && WeightOf(wy) >= hx && HeightOf(wx) < 255
      && HeightOf(wy) < 255
    ensures Tall(AddWeights(wx, wy), Max(WeightOf(wx), WeightOf(wy)))
  {
    hide Fib, WeightOf, HeightOf, AddWeights;
    AddedParts(wx, wy);
    TallPositive(wx, hx);
    TallPositive(wy, hy);
    var h := Max(HeightOf(wx), HeightOf(wy)) + 1;
    FibStep(h);
    if HeightOf(wx) >= HeightOf(wy) {
      OneIsEnough(wx, hx, wy, h);
    } else {
      OneIsEnough(wy, hy, wx, h);
    }
  }

  lemma FibStep(h: nat)
    ensures Fib(h + 2) == Fib(h + 1) + Fib(h)
  {
  }

  /** The taller child and its sibling. */
  lemma OneIsEnough(wt: int, ht: int, ws: int, h: nat)
    requires Tall(wt, ht) && WeightOf(ws) >= ht && h == HeightOf(wt) + 1 && WeightOf(ws) >= 1
    ensures WeightOf(wt) >= Fib(h + 1) && WeightOf(ws) >= Fib(h)
  {
    assert Fib(1) == 1;
  }

  lemma JoinedRoots(parent: seq<int>, n: nat, x: nat, y: nat, r: int)
    requires Forest(parent, n) && n + 1 < |parent| && IsRoot(parent, n, x) && IsRoot(parent, n, y)
    ensures IsRoot(Joined(parent, n, x, y), n + 1, r) <==> r == n + 1 || (IsRoot(parent, n, r) && r != x && r != y)
  {
  }

  lemma JoinBalanced(parent: seq<int>, n: nat, weight: seq<int>, heavy: seq<int>, x: nat, y: nat)
    requires Forest(parent, n) && Balanced(parent, n, weight, heavy) && Lightest(parent, n, weight, x, y)
    requires n + 1 < |parent| && n + 1 < |weight| && n + 1 < |heavy| && HeightOf(weight[x]) < 255
      && HeightOf(weight[y]) < 255
    ensures Balanced(Joined(parent, n, x, y), n + 1, weight[n + 1 := AddWeights(weight[x], weight[y])],
      heavy[n + 1 := Max(WeightOf(weight[x]), WeightOf(weight[y]))])
  {
    var z := n + 1;
    var p, w := Joined(parent, n, x, y), weight[z := AddWeights(weight[x], weight[y])];
    var h := heavy[z := Max(WeightOf(weight[x]), WeightOf(weight[y]))];
    AddedParts(weight[x], weight[y]);
    JoinTall(weight[x], heavy[x], weight[y], heavy[y]);
    hide Joined, Tall, WeightOf, HeightOf, AddWeights, IsRoot;
    forall r | IsRoot(p, z, r) ensures 1 <= r <= z && Tall(w[r], h[r]) {
      JoinedRoots(parent, n, x, y, r);
      RootRange(p, z, r);
    }
    forall r, v | IsRoot(p, z, r) && IsRoot(p, z, v) && r != v
      ensures 1 <= r <= z && 1 <= v <= z && WeightOf(w[v]) >= h[r]
    {
      JoinedRoots(parent, n, x, y, r);
      JoinedRoots(parent, n, x, y, v);
      RootRange(p, z, r);
      RootRange(p, z, v);
      if v == z {
        assert WeightOf(weight[x]) >= heavy[r] && WeightOf(weight[y]) >= heavy[r];
        TallPositive(weight[x], heavy[x]);
      }
    }
  }

  lemma RootRange(parent: seq<int>, n: nat, r: int)
    requires IsRoot(parent, n, r)
    ensures 1 <= r <= n
  {
  }

  lemma TallPositive(w: int, heavy: int)
    requires Tall(w, heavy)
    ensures WeightOf(w) >= 1
  {
  }

  /** The weight of a root is that of its leaves. */
  ghost predicate Adds(parent: seq<int>, n: nat, m: nat, weight: seq<int>, leaf: seq<int>)
    requires Forest(parent, n) && m <= n
  {
    n < |weight| && |leaf| == m + 1
      && forall r :: IsRoot(parent, n, r) ==> WeightOf(weight[r]) == Under(leaf, Roots(parent, n, m), r, m)
  }

  /** The shares of the leaves under a root make up a whole. */
  ghost predicate Whole(parent: seq<int>, n: nat, m: nat)
    requires Forest(parent, n) && m <= n <= LIMIT
  {
    forall r :: IsRoot(parent, n, r) ==> Under(Shares(parent, n, m), Roots(parent, n, m), r, m) == Pow2(LIMIT)
  }

  /** No leaf lies deeper than its tree is tall. */
  ghost predicate Within(parent: seq<int>, n: nat, m: nat, weight: seq<int>)
    requires Forest(parent, n) && m <= n
  {
    n < |weight| && forall k :: 1 <= k <= m ==> DepthOf(parent, n, k) <= HeightOf(weight[RootOf(parent, n, k)])
  }

  lemma RootsJoined(parent: seq<int>, n: nat, m: nat, x: nat, y: nat)
    requires Forest(parent, n) && m <= n && n + 1 < |parent| && IsRoot(parent, n, x) && IsRoot(parent, n, y)
    ensures var s, t := Roots(parent, n, m), Roots(Joined(parent, n, x, y), n + 1, m);
      forall k :: 1 <= k <= m ==> s[k] != n + 1 && t[k] == if s[k] == x || s[k] == y then n + 1 else s[k]
  {
    var s, t := Roots(parent, n, m), Roots(Joined(parent, n, x, y), n + 1, m);
    forall k | 1 <= k <= m ensures s[k] != n + 1 && t[k] == if s[k] == x || s[k] == y then n + 1 else s[k] {
      JoinedWalk(parent, n, x, y, k);
    }
  }

  lemma JoinAdds(parent: seq<int>, n: nat, m: nat, weight: seq<int>, leaf: seq<int>, x: nat, y: nat)
    requires Forest(parent, n) && m <= n && Adds(parent, n, m, weight, leaf) && IsRoot(parent, n, x)
      && IsRoot(parent, n, y) && x != y
    requires n + 1 < |parent| && n + 1 < |weight| && HeightOf(weight[x]) < 255 && HeightOf(weight[y]) < 255
    ensures Adds(Joined(parent, n, x, y), n + 1, m, weight[n + 1 := AddWeights(weight[x], weight[y])], leaf)
  {
    AddedParts(weight[x], weight[y]);
    RootsJoined(parent, n, m, x, y);
    UnderJoined(leaf, Roots(parent, n, m), Roots(Joined(parent, n, x, y), n + 1, m), x, y, n + 1, m);
    var p, w := Joined(parent, n, x, y), weight[n + 1 := AddWeights(weight[x], weight[y])];
    hide Joined, WeightOf, HeightOf, AddWeights, Roots;
    forall r | IsRoot(p, n + 1, r) ensures WeightOf(w[r]) == Under(leaf, Roots(p, n + 1, m), r, m) {
      JoinedRoots(parent, n, x, y, r);
    }
  }

  lemma SharesJoined(parent: seq<int>, n: nat, m: nat, x: nat, y: nat)
    requires Forest(parent, n) && m <= n < LIMIT && n + 1 < |parent| && IsRoot(parent, n, x) && IsRoot(parent, n, y)
    ensures var p := Joined(parent, n, x, y);
      var s, t := Shares(parent, n, m), Shares(p, n + 1, m);
      forall k :: 1 <= k <= m ==> if Roots(p, n + 1, m)[k] == n + 1 then s[k] == 2 * t[k] else s[k] == t[k]
  {
    var p := Joined(parent, n, x, y);
    var s, t := Shares(parent, n, m), Shares(p, n + 1, m);
    forall k | 1 <= k <= m ensures if Roots(p, n + 1, m)[k] == n + 1 then s[k] == 2 * t[k] else s[k] == t[k] {
      JoinedWalk(parent, n, x, y, k);
      var d := DepthOf(parent, n, k);
      assert Pow2(LIMIT - d) == 2 * Pow2(LIMIT - d - 1);
    }
  }

  lemma JoinWhole(parent: seq<int>, n: nat, m: nat, x: nat, y: nat)
    requires Forest(parent, n) && m <= n < LIMIT && Whole(parent, n, m) && IsRoot(parent, n, x) && IsRoot(parent, n, y)
      && x != y && n + 1 < |parent|
    ensures Whole(Joined(parent, n, x, y), n + 1, m)
  {
    var p, z := Joined(parent, n, x, y), n + 1;
    var s, t, u, v := Roots(parent, n, m), Roots(p, z, m), Shares(parent, n, m), Shares(p, z, m);
    RootsJoined(parent, n, m, x, y);
    SharesJoined(parent, n, m, x, y);
    hide Joined, Roots, Shares, Pow2;
    UnderJoined(u, s, t, x, y, z, m);
    UnderHalved(u, v, t, z, m);
    forall r | IsRoot(p, z, r) ensures Under(v, t, r, m) == Pow2(LIMIT) {
      JoinedRoots(parent, n, x, y, r);
    }
  }

  lemma JoinWithin(parent: seq<int>, n: nat, m: nat, weight: seq<int>, x: nat, y: nat)
    requires Forest(parent, n) && m <= n && Within(parent, n, m, weight) && IsRoot(parent, n, x) && IsRoot(parent, n, y)
    requires n + 1 < |parent| && n + 1 < |weight| && HeightOf(weight[x]) < 255 && HeightOf(weight[y]) < 255
    ensures Within(Joined(parent, n, x, y), n + 1, m, weight[n + 1 := AddWeights(weight[x], weight[y])])
  {
    var z := n + 1;
    var p, w := Joined(parent, n, x, y), weight[z := AddWeights(weight[x], weight[y])];
    AddedParts(weight[x], weight[y]);
    hide WeightOf, HeightOf, AddWeights;
    forall k | 1 <= k <= m ensures DepthOf(p, z, k) <= HeightOf(w[RootOf(p, z, k)]) {
      JoinedWalk(parent, n, x, y, k);
    }
  }

  /** Everything the joining keeps. */
  ghost predicate Grown(parent: seq<int>, n: nat, m: nat, weight: seq<int>, heavy: seq<int>, leaf: seq<int>) {
    && 1 <= m <= n <= LIMIT && Forest(parent, n) && Balanced(parent, n, weight, heavy)
      && Adds(parent, n, m, weight, leaf)
    && Whole(parent, n, m) && Within(parent, n, m, weight)
  }

  lemma Join(parent: seq<int>, n: nat, m: nat, weight: seq<int>, heavy: seq<int>, leaf: seq<int>, x: nat, y: nat)
    requires Grown(parent, n, m, weight, heavy, leaf) && Lightest(parent, n, weight, x, y)
    requires n < LIMIT && n + 1 < |parent| && n + 1 < |weight| && n + 1 < |heavy| && HeightOf(weight[x]) < 255
      && HeightOf(weight[y]) < 255
    ensures Grown(Joined(parent, n, x, y), n + 1, m, weight[n + 1 := AddWeights(weight[x], weight[y])],
      heavy[n + 1 := Max(WeightOf(weight[x]), WeightOf(weight[y]))], leaf)
  {
    hide Balanced, Adds, Whole, Within, Joined, AddWeights;
    JoinBalanced(parent, n, weight, heavy, x, y);
    JoinAdds(parent, n, m, weight, leaf, x, y);
    JoinWhole(parent, n, m, x, y);
    JoinWithin(parent, n, m, weight, x, y);
  }
}
