/** BZ2_hbMakeCodeLengths: code lengths from frequencies, with frequencies
    scaled down until no code is too long. */
module HuffmanLengths {
  import opened Arithmetic
  import opened Sizes
  import opened Permutations
  import opened FallbackQSort
  import opened HuffmanHeap
  import opened HuffmanTree
  import opened HuffmanForest
  import opened HuffmanCheap
  import opened Codes

  /** The leaves 1..i weigh this much altogether. */
  function Total(leaf: seq<int>, i: nat): int
    requires i < |leaf|
  {
    if i == 0 then 0 else Total(leaf, i - 1) + leaf[i]
  }

  lemma {:induction false} UnderAtMost(leaf: seq<int>, roots: seq<int>, r: int, i: nat)
    requires i < |leaf| == |roots| && forall k :: 1 <= k <= i ==> leaf[k] >= 0
    ensures Under(leaf, roots, r, i) <= Total(leaf, i)
    ensures (forall k :: 1 <= k <= i ==> roots[k] == r) ==> Under(leaf, roots, r, i) == Total(leaf, i)
  {
    if i > 0 {
      UnderAtMost(leaf, roots, r, i - 1);
    }
  }

  const MAX_TOTAL := 1_000_000

  /** Weights of leaves, as scaled by 256 in the code. */
  ghost predicate Leaves(leaf: seq<int>, m: nat) {
    |leaf| == m + 1 && (forall k :: 1 <= k <= m ==> leaf[k] >= 1) && Total(leaf, m) <= MAX_TOTAL
  }

  /** No tree gets anywhere near 255 levels. */
  lemma HeightsSmall(parent: seq<int>, n: nat, m: nat, weight: seq<int>, heavy: seq<int>, leaf: seq<int>, r: int)
    requires Grown(parent, n, m, weight, heavy, leaf) && Leaves(leaf, m) && IsRoot(parent, n, r)
    ensures HeightOf(weight[r]) < 29 && Fib(HeightOf(weight[r]) + 2) <= Total(leaf, m)
  {
    hide Fib, Within, Whole, Roots, Under, HeightOf, WeightOf;
    assert Tall(weight[r], heavy[r]);
    UnderAtMost(leaf, Roots(parent, n, m), r, m);
    NotSoTall(HeightOf(weight[r]));
  }

  lemma NotSoTall(h: nat)
    requires Fib(h + 2) <= MAX_TOTAL
    ensures h < 29
  {
    FibLarge();
    hide Fib;
    if h >= 29 {
      FibMonotone(31, h + 2);
    }
  }

  // ----- the heap holds the roots ------------------------------------------

  /** The heap holds each root once, except those taken out. */
  ghost predicate HoldsRoots(h: seq<int>, nHeap: nat, parent: seq<int>, n: nat, out: set<int>) {
    && nHeap < |h|
    && (forall j :: 1 <= j <= nHeap ==> IsRoot(parent, n, h[j]) && h[j] !in out)
    && (forall i, j :: 1 <= i < j <= nHeap ==> h[i] != h[j])
    && (forall r :: IsRoot(parent, n, r) && r !in out ==> exists j :: 1 <= j <= nHeap && h[j] == r)
  }

  /** The heap as a whole. */
  ghost predicate Ready(w: seq<int>, h: seq<int>, nHeap: nat, parent: seq<int>, n: nat, out: set<int>) {
    Nodes(w, h, nHeap) && HeapOrder(w, h, nHeap) && HoldsRoots(h, nHeap, parent, n, out)
  }

  lemma HoldsPermuted(h: seq<int>, h': seq<int>, nHeap: nat, parent: seq<int>, n: nat, out: set<int>, top: nat)
    requires HoldsRoots(h, nHeap, parent, n, out) && Permuted(h, h', 1, top)
      && (nHeap == top || (nHeap == 0 && top == 1)) && top < |h|
    ensures HoldsRoots(h', nHeap, parent, n, out)
  {
    if nHeap == top && nHeap > 0 {
      forall j | 1 <= j <= nHeap ensures IsRoot(parent, n, h'[j]) && h'[j] !in out {
        PermutedMember(h, h', 1, nHeap, j);
      }
      forall r | IsRoot(parent, n, r) && r !in out ensures exists j :: 1 <= j <= nHeap && h'[j] == r {
        var j :| 1 <= j <= nHeap && h[j] == r;
        PermutedMember(h', h, 1, nHeap, j);
      }
      forall i, j | 1 <= i < j <= nHeap ensures h'[i] != h'[j] {
        StillOnce(h, h', nHeap, i, j);
      }
    }
  }

  lemma StillOnce(h: seq<int>, h': seq<int>, top: nat, i: nat, j: nat)
    requires Permuted(h, h', 1, top) && 1 <= i < j <= top < |h| && forall a, c :: 1 <= a < c <= top ==> h[a] != h[c]
    ensures h'[i] != h'[j]
  {
    MiddlePermuted(h, h', 1, top);
    hide Permuted;
    var s, t := h[1..top + 1], h'[1..top + 1];
    if t[i - 1] == t[j - 1] {
      assert t == t[..i - 1] + [t[i - 1]] + t[i..j - 1] + [t[j - 1]] + t[j..];
      assert multiset(t)[t[i - 1]] >= 2;
      OnceOnly(s, t[i - 1]);
      assert false;
    }
  }

  lemma OnceOnly(s: seq<int>, x: int)
    requires forall a, c :: 0 <= a < c < |s| ==> s[a] != s[c]
    ensures multiset(s)[x] <= 1
  {
    if x in multiset(s) {
      var i :| 0 <= i < |s| && s[i] == x;
      assert s == s[..i] + [x] + s[i + 1..];
      assert x !in s[..i] && x !in s[i + 1..];
      assert multiset(s) == multiset(s[..i]) + multiset{x} + multiset(s[i + 1..]);
    }
  }

  // ----- one joining -------------------------------------------------------

  /** Taking the top out: the last entry goes there for now. */
  lemma TopOut(w: seq<int>, h: seq<int>, nHeap: nat, parent: seq<int>, n: nat, out: set<int>)
    requires Ready(w, h, nHeap, parent, n, out) && nHeap >= 1
    ensures var h' := h[1 := h[nHeap]];
      Nodes(w, h', nHeap - 1) && Sinking(w, h', nHeap - 1, 1, h'[1])
        && HoldsRoots(h', nHeap - 1, parent, n, out + {h[1]})
  {
    var h' := h[1 := h[nHeap]];
    forall i, j | Edge(i, j, nHeap - 1) && i != 1 && j != 1 ensures w[h'[i]] <= w[h'[j]] {
      assert Edge(i, j, nHeap);
    }
    forall r | IsRoot(parent, n, r) && r !in out + {h[1]} ensures exists j :: 1 <= j <= nHeap - 1 && h'[j] == r {
      var j :| 1 <= j <= nHeap && h[j] == r;
      assert h'[if j == nHeap then 1 else j] == r;
    }
  }

  /** n1 = heap[1]; heap[1] = heap[nHeap]; nHeap--; DOWNHEAP(1); */
  method Pop(heap: array<int>, weight: seq<int>, nHeap: nat, ghost parent: seq<int>, ghost n: nat, ghost out: set<int>)
      returns (x: int)
    requires nHeap >= 1 && Ready(weight, heap[..], nHeap, parent, n, out)
    modifies heap
    ensures x == old(heap[1]) && Ready(weight, heap[..], nHeap - 1, parent, n, out + {x})
    ensures IsRoot(parent, n, x) && x !in out && 0 <= x < |weight|
    ensures forall r :: IsRoot(parent, n, r) && r !in out && 0 <= r < |weight| ==> weight[x] <= weight[r]
  {
    hide HeapOrder, HoldsRoots, Nodes, Sinking, Permuted;
    ghost var h := heap[..];
    PopFacts(weight, h, nHeap, parent, n, out);
    TopOut(weight, h, nHeap, parent, n, out);
    x := heap[1];
    heap[1] := heap[nHeap];
    assert heap[..] == h[1 := h[nHeap]];
    ghost var h' := heap[..];
    DownHeap(heap, weight, nHeap - 1);
    HoldsPermuted(h', heap[..], nHeap - 1, parent, n, out + {x}, if nHeap - 1 < 1 then 1 else nHeap - 1);
  }

  lemma PopFacts(w: seq<int>, h: seq<int>, nHeap: nat, parent: seq<int>, n: nat, out: set<int>)
    requires nHeap >= 1 && Ready(w, h, nHeap, parent, n, out)
    ensures nHeap < |h| && IsRoot(parent, n, h[1]) && h[1] !in out && 0 <= h[1] < |w|
    ensures forall r :: IsRoot(parent, n, r) && r !in out && 0 <= r < |w| ==> w[h[1]] <= w[r]
  {
    forall r | IsRoot(parent, n, r) && r !in out && 0 <= r < |w| ensures w[h[1]] <= w[r] {
      var j :| 1 <= j <= nHeap && h[j] == r;
      TopIsLeast(w, h, nHeap, j);
    }
  }

  /** The two nodes taken out are the lightest. */
  lemma TwoLightest(parent: seq<int>, n: nat, weight: seq<int>, x: int, y: int)
    requires n < |weight| && IsRoot(parent, n, x) && IsRoot(parent, n, y) && x != y
    requires forall r :: IsRoot(parent, n, r) && 0 <= r < |weight| ==> weight[x] <= weight[r]
    requires forall r :: IsRoot(parent, n, r) && r !in {x} && 0 <= r < |weight| ==> weight[y] <= weight[r]
    ensures Lightest(parent, n, weight, x, y)
  {
  }

  /** The new root goes to the end of the heap. */
  lemma NewRoot(w: seq<int>, w': seq<int>, h: seq<int>, nHeap: nat, parent: seq<int>, n: nat, x: nat, y: nat)
    requires Ready(w, h, nHeap, parent, n, {x, y}) && Forest(parent, n) && n + 1 < |parent| && IsRoot(parent, n, x)
      && IsRoot(parent, n, y)
    requires nHeap + 1 < |h| && n + 1 < |w| == |w'| && w' == w[n + 1 := w'[n + 1]]
    ensures var h' := h[nHeap + 1 := n + 1];
      Nodes(w', h', nHeap + 1) && HeapOrder(w', h', nHeap)
        && HoldsRoots(h', nHeap + 1, Joined(parent, n, x, y), n + 1, {})
  {
    var z := n + 1;
    var h', p := h[nHeap + 1 := z], Joined(parent, n, x, y);
    assert Nodes(w', h', nHeap + 1);
    forall i, j | Edge(i, j, nHeap) ensures w'[h'[i]] <= w'[h'[j]] {
      assert IsRoot(parent, n, h[i]) && IsRoot(parent, n, h[j]);
      assert w[h[i]] <= w[h[j]];
    }
    forall j | 1 <= j <= nHeap + 1 ensures IsRoot(p, n + 1, h'[j]) {
      JoinedRoots(parent, n, x, y, h'[j]);
    }
    forall r | IsRoot(p, z, r) ensures exists j :: 1 <= j <= nHeap + 1 && h'[j] == r {
      JoinedRoots(parent, n, x, y, r);
      if r == z {
        assert h'[nHeap + 1] == r;
      } else {
        var j :| 1 <= j <= nHeap && h[j] == r;
        assert h'[j] == r;
      }
    }
  }

  /** The arrays between two joinings. */
  ghost predicate Building(heap: seq<int>, nHeap: nat, parent: seq<int>, weight: seq<int>, n: nat, m: nat,
      heavy: seq<int>, leaf: seq<int>) {
    && Ready(weight, heap, nHeap, parent, n, {}) && Grown(parent, n, m, weight, heavy, leaf) && Leaves(leaf, m)
    && Cheap(parent, n, m, weight, leaf)
    && n + nHeap == 2 * m && 2 <= m <= BZ_MAX_ALPHA_SIZE && |heap| == BZ_MAX_ALPHA_SIZE + 2
      && |parent| == 2 * BZ_MAX_ALPHA_SIZE == |weight| == |heavy|
  }

  lemma AfterPops(w: seq<int>, h: seq<int>, nHeap: nat, parent: seq<int>, n: nat, x: int, y: int)
    requires Ready(w, h, nHeap, parent, n, {} + {x} + {y})
    ensures Ready(w, h, nHeap, parent, n, {x, y})
  {
    assert {} + {x} + {y} == {x, y};
  }

  lemma BuildingIs(heap: seq<int>, nHeap: nat, parent: seq<int>, weight: seq<int>, n: nat, m: nat, heavy: seq<int>,
      leaf: seq<int>)
    requires Building(heap, nHeap, parent, weight, n, m, heavy, leaf)
    ensures Ready(weight, heap, nHeap, parent, n, {}) && Grown(parent, n, m, weight, heavy, leaf) && Leaves(leaf, m)
      && Forest(parent, n) && Cheap(parent, n, m, weight, leaf)
    ensures n + nHeap == 2 * m && 2 <= m <= BZ_MAX_ALPHA_SIZE && m <= n && |heap| == BZ_MAX_ALPHA_SIZE + 2
      && |parent| == 2 * BZ_MAX_ALPHA_SIZE == |weight| == |heavy|
    ensures nHeap > 1 ==> n + 1 < |weight|
  {
  }

  /** Take out the two lightest roots. */
  method PopTwo(heap: array<int>, weight: seq<int>, nHeap: nat, ghost parent: seq<int>, ghost n: nat)
      returns (n1: int, n2: int)
    requires nHeap > 1 && n < |weight| && Ready(weight, heap[..], nHeap, parent, n, {})
    modifies heap
    ensures Ready(weight, heap[..], nHeap - 2, parent, n, {n1, n2}) && Lightest(parent, n, weight, n1, n2)
  {
    hide Ready, Lightest;
    n1 := Pop(heap, weight, nHeap, parent, n, {});
    n2 := Pop(heap, weight, nHeap - 1, parent, n, {} + {n1});
    AfterPops(weight, heap[..], nHeap - 2, parent, n, n1, n2);
    TwoLightest(parent, n, weight, n1, n2);
  }

  lemma LightestIs(parent: seq<int>, n: nat, weight: seq<int>, x: int, y: int)
    requires Lightest(parent, n, weight, x, y)
    ensures IsRoot(parent, n, x) && IsRoot(parent, n, y) && x != y && 1 <= x <= n && 1 <= y <= n
  {
  }

  /** The two lightest roots get a new common parent. */
  method JoinTwo(heap: array<int>, parent: array<int>, weight: array<int>, nHeap: nat, nNodes: nat, ghost m: nat,
      ghost heavy0: seq<int>, ghost leaf: seq<int>) returns (ghost heavy: seq<int>)
    requires heap != parent && heap != weight && parent != weight && nHeap > 1
    requires Building(heap[..], nHeap, parent[..], weight[..], nNodes, m, heavy0, leaf)
    modifies heap, parent, weight
    ensures Building(heap[..], nHeap - 1, parent[..], weight[..], nNodes + 1, m, heavy, leaf)
    ensures nNodes + 1 < weight.Length && weight[..] == old(weight[..])[nNodes + 1 := weight[nNodes + 1]]
  {
    hide Building, Ready, Grown, Leaves, Lightest, AddWeights, Joined, HeightOf, Forest, Cheap;
    ghost var p, w := parent[..], weight[..];
    BuildingIs(heap[..], nHeap, p, w, nNodes, m, heavy0, leaf);
    var n1, n2 := PopTwo(heap, weight[..], nHeap, p, nNodes);
    LightestIs(p, nNodes, w, n1, n2);
    HeightsSmall(p, nNodes, m, w, heavy0, leaf, n1);
    HeightsSmall(p, nNodes, m, w, heavy0, leaf, n2);
    NewPositive(p, nNodes, m, w, heavy0, leaf, n1, n2);
    Join(p, nNodes, m, w, heavy0, leaf, n1, n2);
    JoinCheap(p, nNodes, m, w, heavy0, leaf, n1, n2);
    parent[n1] := nNodes + 1;
    parent[n2] := nNodes + 1;
    weight[nNodes + 1] := AddWeights(weight[n1], weight[n2]);
    parent[nNodes + 1] := ROOT;
    JoinedIs(p, nNodes, n1, n2);
    assert parent[..] == Joined(p, nNodes, n1, n2);
    assert weight[..] == w[nNodes + 1 := AddWeights(w[n1], w[n2])];
    heavy := heavy0[nNodes + 1 := Max(WeightOf(w[n1]), WeightOf(w[n2]))];
    PushNew(heap, weight[..], nHeap - 2, nNodes, p, w, n1, n2);
    BuildingAgain(heap[..], nHeap - 1, parent[..], weight[..], nNodes + 1, m, heavy, leaf);
  }

  /** nHeap++; heap[nHeap] = nNodes; UPHEAP(nHeap); */
  method PushNew(heap: array<int>, weight: seq<int>, nHeap: nat, n: nat, ghost p: seq<int>, ghost w: seq<int>,
      ghost x: nat, ghost y: nat)
    requires Ready(w, heap[..], nHeap, p, n, {x, y}) && Forest(p, n) && n + 1 < |p| && IsRoot(p, n, x)
      && IsRoot(p, n, y)
    requires nHeap + 1 < heap.Length && n + 1 < |w| == |weight| && weight == w[n + 1 := weight[n + 1]]
      && weight[n + 1] > 0
    modifies heap
    ensures Nodes(weight, heap[..], nHeap + 1) && HeapOrder(weight, heap[..], nHeap + 1)
      && HoldsRoots(heap[..], nHeap + 1, Joined(p, n, x, y), n + 1, {})
  {
    hide Ready, HeapOrder, HoldsRoots, Permuted, Joined;
    ghost var h := heap[..];
    NewRoot(w, weight, h, nHeap, p, n, x, y);
    heap[nHeap + 1] := n + 1;
    assert heap[..] == h[nHeap + 1 := n + 1];
    ghost var h' := heap[..];
    UpHeap(heap, weight, nHeap + 1);
    HoldsPermuted(h', heap[..], nHeap + 1, Joined(p, n, x, y), n + 1, {}, nHeap + 1);
  }

  lemma JoinedIs(parent: seq<int>, n: nat, x: nat, y: nat)
    requires Forest(parent, n) && 1 <= x <= n && 1 <= y <= n && n + 1 < |parent|
    ensures Joined(parent, n, x, y) == parent[x := n + 1][y := n + 1][n + 1 := ROOT]
  {
  }

  lemma NewPositive(parent: seq<int>, n: nat, m: nat, weight: seq<int>, heavy: seq<int>, leaf: seq<int>, x: int, y: int)
    requires Grown(parent, n, m, weight, heavy, leaf) && IsRoot(parent, n, x) && IsRoot(parent, n, y)
    ensures AddWeights(weight[x], weight[y]) > 0
  {
    hide Whole, Within, Adds;
    assert Tall(weight[x], heavy[x]) && Tall(weight[y], heavy[y]);
  }

  lemma BuildingAgain(heap: seq<int>, nHeap: nat, parent: seq<int>, weight: seq<int>, n: nat, m: nat, heavy: seq<int>,
      leaf: seq<int>)
    requires Nodes(weight, heap, nHeap) && HeapOrder(weight, heap, nHeap) && HoldsRoots(heap, nHeap, parent, n, {})
      && Grown(parent, n, m, weight, heavy, leaf) && Leaves(leaf, m) && Cheap(parent, n, m, weight, leaf)
    requires n + nHeap == 2 * m && 2 <= m <= BZ_MAX_ALPHA_SIZE && |heap| == BZ_MAX_ALPHA_SIZE + 2
      && |parent| == 2 * BZ_MAX_ALPHA_SIZE == |weight| == |heavy|
    ensures Building(heap, nHeap, parent, weight, n, m, heavy, leaf)
  {
  }

  // ----- the leaves --------------------------------------------------------

  /** The array holds the weights of the leaves. */
  ghost predicate LeafWeights(weight: seq<int>, leaf: seq<int>, m: nat) {
    |leaf| == m + 1 && m < |weight| && weight[0] == 0 && forall k :: 1 <= k <= m ==> weight[k] == 256 * leaf[k]
  }

  /** One leaf more in the heap. */
  lemma NewLeaf(w: seq<int>, h: seq<int>, parent: seq<int>, i: nat)
    requires Ready(w, h, i, parent, i, {}) && i + 1 < |h| && i + 1 < |parent| && i + 1 < |w|
      && (forall k :: 1 <= k <= i ==> parent[k] == ROOT)
    ensures var h', p := h[i + 1 := i + 1], parent[i + 1 := ROOT];
      Nodes(w, h', i + 1) && HeapOrder(w, h', i) && HoldsRoots(h', i + 1, p, i + 1, {})
  {
    var z := i + 1;
    var h', p := h[z := z], parent[z := ROOT];
    assert Nodes(w, h', z);
    forall a, c | Edge(a, c, i) ensures w[h'[a]] <= w[h'[c]] {
      assert w[h[a]] <= w[h[c]];
    }
    forall j | 1 <= j <= z ensures IsRoot(p, z, h'[j]) {
      if j <= i {
        assert IsRoot(parent, i, h[j]);
      }
    }
    forall r | IsRoot(p, z, r) ensures exists j :: 1 <= j <= z && h'[j] == r {
      if r == z {
        assert h'[z] == r;
      } else {
        assert IsRoot(parent, i, r);
        var j :| 1 <= j <= i && h[j] == r;
        assert h'[j] == r;
      }
    }
  }

  method AddLeaf(heap: array<int>, parent: array<int>, weight: seq<int>, i: nat)
    requires heap != parent && i + 1 < heap.Length && i + 1 < parent.Length && i + 1 < |weight| && weight[i + 1] > 0
    requires Ready(weight, heap[..], i, parent[..], i, {}) && forall k :: 1 <= k <= i ==> parent[k] == ROOT
    modifies heap, parent
    ensures Ready(weight, heap[..], i + 1, parent[..], i + 1, {}) && forall k :: 1 <= k <= i + 1 ==> parent[k] == ROOT
  {
    hide HeapOrder, HoldsRoots, Permuted;
    ghost var h, p := heap[..], parent[..];
    NewLeaf(weight, h, p, i);
    parent[i + 1] := ROOT;
    heap[i + 1] := i + 1;
    assert heap[..] == h[i + 1 := i + 1] && parent[..] == p[i + 1 := ROOT];
    ghost var h' := heap[..];
    UpHeap(heap, weight, i + 1);
    HoldsPermuted(h', heap[..], i + 1, parent[..], i + 1, {}, i + 1);
  }

  /** Leaves alone satisfy what joining keeps. */
  lemma LeavesGrown(parent: seq<int>, m: nat, weight: seq<int>, heavy: seq<int>, leaf: seq<int>)
    requires 1 <= m <= LIMIT && m < |parent| && m < |heavy| && LeafWeights(weight, leaf, m) && Leaves(leaf, m)
    requires (forall k :: 1 <= k <= m ==> parent[k] == ROOT) && forall k :: 0 <= k < |heavy| ==> heavy[k] == 0
    ensures Grown(parent, m, m, weight, heavy, leaf)
  {
    assert Forest(parent, m);
    LeavesBalanced(parent, m, weight, heavy, leaf);
    LeavesAlone(parent, m);
    hide Pow2, Under, Balanced, Roots, Shares;
    forall r | IsRoot(parent, m, r)
      ensures WeightOf(weight[r]) == Under(leaf, Roots(parent, m, m), r, m)
      ensures Under(Shares(parent, m, m), Roots(parent, m, m), r, m) == Pow2(LIMIT)
    {
      UnderOne(leaf, Roots(parent, m, m), r, m);
      UnderOne(Shares(parent, m, m), Roots(parent, m, m), r, m);
    }
  }

  lemma LeavesAlone(parent: seq<int>, m: nat)
    requires 1 <= m <= LIMIT && m < |parent| && forall k :: 1 <= k <= m ==> parent[k] == ROOT
    ensures Forest(parent, m)
      && forall k :: 1 <= k <= m ==> Roots(parent, m, m)[k] == k && Shares(parent, m, m)[k] == Pow2(LIMIT) && DepthOf(parent, m, k) == 0
  {
    hide Pow2;
  }

  lemma LeavesBalanced(parent: seq<int>, m: nat, weight: seq<int>, heavy: seq<int>, leaf: seq<int>)
    requires m < |parent| && m < |heavy| && LeafWeights(weight, leaf, m) && Leaves(leaf, m)
      && forall k :: 0 <= k < |heavy| ==> heavy[k] == 0
    ensures Balanced(parent, m, weight, heavy)
  {
    forall r | IsRoot(parent, m, r) ensures WeightOf(weight[r]) >= 1 && Tall(weight[r], heavy[r]) {
      assert HeightOf(weight[r]) == 0 && WeightOf(weight[r]) == leaf[r];
      assert Fib(2) == 1;
    }
  }

  /** Put all leaves into the heap. */
  method AddLeaves(heap: array<int>, parent: array<int>, weight: array<int>, m: nat, ghost leaf: seq<int>)
      returns (ghost heavy: seq<int>)
    requires heap != parent && heap != weight && parent != weight && heap.Length == BZ_MAX_ALPHA_SIZE + 2
      && parent.Length == 2 * BZ_MAX_ALPHA_SIZE == weight.Length
    requires 2 <= m <= BZ_MAX_ALPHA_SIZE && LeafWeights(weight[..], leaf, m) && Leaves(leaf, m)
    requires InRange(heap[..], 2 * BZ_MAX_ALPHA_SIZE)
    modifies heap, parent
    ensures Building(heap[..], m, parent[..], weight[..], m, m, heavy, leaf)
  {
    heap[0] := 0;
    parent[0] := -2;
    heavy := seq(2 * BZ_MAX_ALPHA_SIZE, i => 0);
    ghost var w := weight[..];
    NoLeaf(w, heap[..], parent[..]);
    hide Ready, Grown, Cheap;
    for i := 0 to m
      invariant weight[..] == w && Ready(w, heap[..], i, parent[..], i, {})
        && forall k :: 1 <= k <= i ==> parent[k] == ROOT
    {
      AddLeaf(heap, parent, weight[..], i);
    }
    LeavesGrown(parent[..], m, w, heavy, leaf);
    LeavesCheap(parent[..], m, w, leaf);
  }

  lemma NoLeaf(w: seq<int>, h: seq<int>, parent: seq<int>)
    requires |h| > 0 && |w| > 0 && |parent| > 0 && InRange(h, |w|) && h[0] == 0 && w[0] == 0
    ensures Ready(w, h, 0, parent, 0, {})
  {
  }

  // ----- the finished tree -------------------------------------------------

  /** Build the whole tree: 2m - 1 nodes under a single root. */
  method BuildTree(heap: array<int>, parent: array<int>, weight: array<int>, m: nat, ghost leaf: seq<int>)
      returns (ghost heavy: seq<int>)
    requires heap != parent && heap != weight && parent != weight && heap.Length == BZ_MAX_ALPHA_SIZE + 2
      && parent.Length == 2 * BZ_MAX_ALPHA_SIZE == weight.Length
    requires 2 <= m <= BZ_MAX_ALPHA_SIZE && LeafWeights(weight[..], leaf, m) && Leaves(leaf, m)
      && InRange(heap[..], 2 * BZ_MAX_ALPHA_SIZE)
    modifies heap, parent, weight
    ensures Building(heap[..], 1, parent[..], weight[..], 2 * m - 1, m, heavy, leaf)
    ensures LeafWeights(weight[..], leaf, m) && InRange(heap[..], 2 * BZ_MAX_ALPHA_SIZE)
  {
    hide Building;
    heavy := AddLeaves(heap, parent, weight, m, leaf);
    var nNodes, nHeap := m, m;
    while nHeap > 1
      invariant 1 <= nHeap <= m && nNodes + nHeap == 2 * m
        && Building(heap[..], nHeap, parent[..], weight[..], nNodes, m, heavy, leaf)
      invariant weight[..m + 1] == old(weight[..m + 1])
    {
      heavy := JoinTwo(heap, parent, weight, nHeap, nNodes, m, heavy, leaf);
      nNodes, nHeap := nNodes + 1, nHeap - 1;
    }
    LeavesKept(old(weight[..]), weight[..], leaf, m);
    HeapInRange(heap[..], nHeap, parent[..], weight[..], nNodes, m, heavy, leaf);
  }

  lemma LeavesKept(w: seq<int>, w': seq<int>, leaf: seq<int>, m: nat)
    requires LeafWeights(w, leaf, m) && m < |w'| && w'[..m + 1] == w[..m + 1]
    ensures LeafWeights(w', leaf, m)
  {
    forall k | 0 <= k <= m ensures w'[k] == w[k] {
      assert w'[..m + 1][k] == w[..m + 1][k];
    }
  }

  lemma HeapInRange(heap: seq<int>, nHeap: nat, parent: seq<int>, weight: seq<int>, n: nat, m: nat, heavy: seq<int>,
      leaf: seq<int>)
    requires Building(heap, nHeap, parent, weight, n, m, heavy, leaf)
    ensures InRange(heap, 2 * BZ_MAX_ALPHA_SIZE)
  {
  }

  /** With a single root every leaf is under it, at least one link away. */
  lemma OneRoot(heap: seq<int>, parent: seq<int>, weight: seq<int>, m: nat, heavy: seq<int>, leaf: seq<int>, k: nat)
    requires m > 0 && Building(heap, 1, parent, weight, 2 * m - 1, m, heavy, leaf) && 1 <= k <= m
    ensures Forest(parent, 2 * m - 1) && RootOf(parent, 2 * m - 1, k) == heap[1] && IsRoot(parent, 2 * m - 1, heap[1])
      && DepthOf(parent, 2 * m - 1, k) >= 1
  {
    var n := 2 * m - 1;
    OnlyRoot(heap, parent, weight, m, heavy, leaf, RootOf(parent, n, k));
    OnlyRoot(heap, parent, weight, m, heavy, leaf, RootOf(parent, n, n));
  }

  lemma OnlyRoot(heap: seq<int>, parent: seq<int>, weight: seq<int>, m: nat, heavy: seq<int>, leaf: seq<int>, r: int)
    requires m > 0 && Building(heap, 1, parent, weight, 2 * m - 1, m, heavy, leaf) && IsRoot(parent, 2 * m - 1, r)
    ensures r == heap[1]
  {
    hide Grown;
    var j :| 1 <= j <= 1 && heap[j] == r;
  }

  /** Lengths are depths. */
  ghost predicate DepthsAre(lens: seq<nat>, parent: seq<int>, n: nat, m: nat)
    requires Forest(parent, n) && m <= n
  {
    |lens| == m && forall k :: 1 <= k <= m ==> lens[k - 1] == DepthOf(parent, n, k)
  }

  lemma {:induction false} SharesAreKraft(lens: seq<nat>, parent: seq<int>, n: nat, m: nat, r: int, i: nat)
    requires Forest(parent, n) && i <= m <= n <= LIMIT && DepthsAre(lens, parent, n, m)
    requires (forall k :: 0 <= k < |lens| ==> lens[k] <= BZ_MAX_LEN)
      && forall k :: 1 <= k <= m ==> RootOf(parent, n, k) == r
    ensures Under(Shares(parent, n, m), Roots(parent, n, m), r, i) ==
      Pow2(LIMIT - BZ_MAX_LEN) * KraftSum(lens, BZ_MAX_LEN, i)
  {
    hide Pow2, Shares, Roots, LIMIT, BZ_MAX_LEN;
    if i > 0 {
      SharesAreKraft(lens, parent, n, m, r, i - 1);
      var d := lens[i - 1];
      LimitsOrdered();
      Pow2Add(LIMIT - BZ_MAX_LEN, BZ_MAX_LEN - d);
      Distribute(Pow2(LIMIT - BZ_MAX_LEN), KraftSum(lens, BZ_MAX_LEN, i - 1), Pow2(BZ_MAX_LEN - d));
    }
  }

  lemma LimitsOrdered()
    ensures 0 < BZ_MAX_LEN < LIMIT
  {
  }

  /** The lengths satisfy the Kraft inequality, with equality. */
  lemma TreeIsKraft(lens: seq<nat>, parent: seq<int>, n: nat, m: nat, r: int)
    requires Forest(parent, n) && 1 <= m <= n <= LIMIT && Whole(parent, n, m) && DepthsAre(lens, parent, n, m)
      && IsRoot(parent, n, r)
    requires (forall k :: 0 <= k < |lens| ==> lens[k] <= BZ_MAX_LEN)
      && forall k :: 1 <= k <= m ==> RootOf(parent, n, k) == r
    ensures Kraft(lens)
  {
    hide Pow2, KraftSum, Under, Shares, Roots, LIMIT, BZ_MAX_LEN;
    LimitsOrdered();
    SharesAreKraft(lens, parent, n, m, r, m);
    Pow2Add(LIMIT - BZ_MAX_LEN, BZ_MAX_LEN);
    Cancel(Pow2(LIMIT - BZ_MAX_LEN), KraftSum(lens, BZ_MAX_LEN, m), Pow2(BZ_MAX_LEN));
  }

  // ----- lengths and rescaling ---------------------------------------------

  /** Follow the links from one leaf. */
  method Climb(parent: array<int>, i: nat, ghost n: nat) returns (j: nat)
    requires Forest(parent[..], n) && 1 <= i <= n
    ensures j == DepthOf(parent[..], n, i)
  {
    var k := i;
    j := 0;
    while parent[k] >= 0
      invariant 1 <= k <= n && j + DepthOf(parent[..], n, k) == DepthOf(parent[..], n, i)
      decreases n - k
    {
      k := parent[k];
      j := j + 1;
    }
  }

  /** Follow the links from every leaf; `at` is a leaf that is too deep. */
  method Measure(parent: array<int>, m: nat, maxLen: nat, ghost n: nat)
      returns (lens: seq<nat>, tooLong: bool, ghost at: nat)
    requires Forest(parent[..], n) && m <= n
    ensures DepthsAre(lens, parent[..], n, m)
      && if tooLong then at < m && lens[at] > maxLen else forall i :: 0 <= i < m ==> lens[i] <= maxLen
  {
    lens, tooLong, at := [], false, 0;
    for i := 1 to m + 1
      invariant |lens| == i - 1 && (forall k :: 1 <= k < i ==> lens[k - 1] == DepthOf(parent[..], n, k))
      invariant if tooLong then at < i - 1 && lens[at] > maxLen else forall k :: 0 <= k < i - 1 ==> lens[k] <= maxLen
    {
      var j := Climb(parent, i, n);
      lens := lens + [j];
      if j > maxLen {
        tooLong, at := true, i - 1;
      }
    }
  }

  /** 1 + w / 2 */
  function Scaled(leaf: seq<int>): (s: seq<int>)
    ensures |s| == |leaf| && forall k :: 0 <= k < |leaf| ==> s[k] == 1 + leaf[k] / 2
  {
    seq(|leaf|, k requires 0 <= k < |leaf| => 1 + leaf[k] / 2)
  }

  lemma {:induction false} ScaledTotal(leaf: seq<int>, i: nat)
    requires i < |leaf| && forall k :: 1 <= k <= i ==> leaf[k] >= 1
    ensures Total(Scaled(leaf), i) <= Total(leaf, i)
      && (Total(leaf, i) > 2 * i ==> Total(Scaled(leaf), i) < Total(leaf, i))
    ensures Total(leaf, i) >= 0
  {
    if i > 0 {
      ScaledTotal(leaf, i - 1);
    }
  }

  /** A code that is too long takes more weight than leaves of weight two. */
  lemma TooLongIsHeavy(heap: seq<int>, parent: seq<int>, weight: seq<int>, m: nat, heavy: seq<int>, leaf: seq<int>,
      k: nat)
    requires m > 0 && Building(heap, 1, parent, weight, 2 * m - 1, m, heavy, leaf) && 1 <= k <= m
      && Forest(parent, 2 * m - 1) && DepthOf(parent, 2 * m - 1, k) > 17
    ensures Total(leaf, m) > 2 * m
  {
    hide Building, Fib, Grown, Leaves;
    BuildingIs(heap, 1, parent, weight, 2 * m - 1, m, heavy, leaf);
    OneRoot(heap, parent, weight, m, heavy, leaf, k);
    HeightsSmall(parent, 2 * m - 1, m, weight, heavy, leaf, heap[1]);
    NotDeeper(parent, 2 * m - 1, m, weight, heavy, leaf, k);
    FibSmall();
    FibMonotone(15, HeightOf(weight[heap[1]]) + 2);
  }

  lemma NotDeeper(parent: seq<int>, n: nat, m: nat, weight: seq<int>, heavy: seq<int>, leaf: seq<int>, k: nat)
    requires Grown(parent, n, m, weight, heavy, leaf) && 1 <= k <= m
    ensures Forest(parent, n) && m <= n && RootOf(parent, n, k) < |weight|
      && DepthOf(parent, n, k) <= HeightOf(weight[RootOf(parent, n, k)])
  {
    hide Whole, Adds, Balanced;
  }

  /** Halve the weights of the leaves. */
  method Rescale(weight: array<int>, m: nat, ghost leaf: seq<int>) returns (ghost leaf': seq<int>)
    requires LeafWeights(weight[..], leaf, m) && Leaves(leaf, m)
    modifies weight
    ensures leaf' == Scaled(leaf) && LeafWeights(weight[..], leaf', m) && Leaves(leaf', m)
  {
    leaf' := Scaled(leaf);
    for i := 1 to m + 1
      invariant weight[0] == 0 && (forall k :: 1 <= k < i ==> weight[k] == 256 * leaf'[k])
        && forall k :: i <= k <= m ==> weight[k] == 256 * leaf[k]
    {
      var j := weight[i] / 256;
      j := 1 + j / 2;
      weight[i] := 256 * j;
    }
    ScaledTotal(leaf, m);
  }

  /** The finished tree gives lengths with which codes exist. */
  lemma GoodLengths(heap: seq<int>, parent: seq<int>, weight: seq<int>, m: nat, heavy: seq<int>, leaf: seq<int>,
      lens: seq<nat>)
    requires m > 0 && Building(heap, 1, parent, weight, 2 * m - 1, m, heavy, leaf) && Forest(parent, 2 * m - 1)
      && DepthsAre(lens, parent, 2 * m - 1, m)
    requires forall i :: 0 <= i < m ==> lens[i] <= 17
    ensures (forall i :: 0 <= i < m ==> 1 <= lens[i] <= 17) && Kraft(lens)
  {
    var n := 2 * m - 1;
    forall k | 1 <= k <= m ensures RootOf(parent, n, k) == heap[1] && DepthOf(parent, n, k) >= 1 {
      OneRoot(heap, parent, weight, m, heavy, leaf, k);
    }
    OneRoot(heap, parent, weight, m, heavy, leaf, 1);
    BuildingIs(heap, 1, parent, weight, n, m, heavy, leaf);
    GrownWhole(parent, n, m, weight, heavy, leaf);
    hide Building, Whole, Kraft;
    forall i | 0 <= i < m ensures 1 <= lens[i] {
      assert lens[(i + 1) - 1] == DepthOf(parent, n, i + 1);
    }
    TreeIsKraft(lens, parent, n, m, heap[1]);
  }

  lemma GrownWhole(parent: seq<int>, n: nat, m: nat, weight: seq<int>, heavy: seq<int>, leaf: seq<int>)
    requires Grown(parent, n, m, weight, heavy, leaf)
    ensures Forest(parent, n) && 1 <= m <= n <= LIMIT && Whole(parent, n, m)
  {
  }

  function Sum1(freq: seq<nat>, i: nat): nat
    requires i <= |freq|
  {
    if i == 0 then 0 else Sum1(freq, i - 1) + if freq[i - 1] == 0 then 1 else freq[i - 1]
  }

  /** The frequencies, zeros counted as one, halved and increased k times. */
  function Rescaled(freq: seq<nat>, k: nat): (f: seq<nat>)
    ensures |f| == |freq|
  {
    if k == 0 then seq(|freq|, i requires 0 <= i < |freq| => if freq[i] == 0 then 1 else freq[i])
    else
      var g := Rescaled(freq, k - 1);
      seq(|freq|, i requires 0 <= i < |freq| => 1 + g[i] / 2)
  }

  /** A cheapest code for these frequencies has a code of more than 17 bits. */
  ghost predicate Overlong(f: seq<nat>) {
    exists lens: seq<nat>, i: nat :: Optimal(lens, f) && i < |lens| && lens[i] > 17
  }

  /** The first so many frequencies all were overlong. */
  ghost predicate Tried(freq: seq<nat>, times: nat) {
    forall k :: 0 <= k < times ==> Overlong(Rescaled(freq, k))
  }

  lemma NotTried(freq: seq<nat>)
    ensures Tried(freq, 0)
  {
  }

  lemma TriedMore(freq: seq<nat>, times: nat)
    requires Tried(freq, times) && Overlong(Rescaled(freq, times))
    ensures Tried(freq, times + 1)
  {
    hide Overlong, Rescaled;
  }

  /** The leaves have these frequencies. */
  ghost predicate Frequent(leaf: seq<int>, f: seq<nat>) {
    |leaf| == |f| + 1 && forall k :: 1 <= k <= |f| ==> leaf[k] == f[k - 1]
  }

  lemma FrequentScaled(leaf: seq<int>, freq: seq<nat>, k: nat)
    requires Frequent(leaf, Rescaled(freq, k))
    ensures Frequent(Scaled(leaf), Rescaled(freq, k + 1))
  {
    var f, g := Rescaled(freq, k), Rescaled(freq, k + 1);
    forall i | 1 <= i <= |freq| ensures Scaled(leaf)[i] == g[i - 1] {
      assert g[i - 1] == 1 + f[i - 1] / 2;
    }
  }

  /** Lengths with which codes exist. */
  ghost predicate Good(lens: seq<nat>, m: nat) {
    |lens| == m && (forall i :: 0 <= i < m ==> 1 <= lens[i] <= 17) && Kraft(lens)
  }

  /** Build a tree and measure it. */
  method TryWeights(heap: array<int>, parent: array<int>, weight: array<int>, m: nat, ghost leaf: seq<int>,
      ghost f: seq<nat>) returns (lens: seq<nat>, tooLong: bool)
    requires heap != parent && heap != weight && parent != weight && heap.Length == BZ_MAX_ALPHA_SIZE + 2
      && parent.Length == 2 * BZ_MAX_ALPHA_SIZE == weight.Length
    requires 2 <= m <= BZ_MAX_ALPHA_SIZE && LeafWeights(weight[..], leaf, m) && Leaves(leaf, m)
      && InRange(heap[..], 2 * BZ_MAX_ALPHA_SIZE) && |f| == m && Frequent(leaf, f)
    modifies heap, parent, weight
    ensures LeafWeights(weight[..], leaf, m) && InRange(heap[..], 2 * BZ_MAX_ALPHA_SIZE)
    ensures if tooLong then |leaf| == m + 1 && Total(leaf, m) > 2 * m && Overlong(f) else Good(lens, m) && Optimal(lens, f)
  {
    hide Building, LeafWeights, Kraft, Leaves, InRange, DepthsAre, Total, Optimal, Frequent, Overlong;
    ghost var heavy := BuildTree(heap, parent, weight, m, leaf);
    BuildingIs(heap[..], 1, parent[..], weight[..], 2 * m - 1, m, heavy, leaf);
    ghost var at;
    lens, tooLong, at := Measure(parent, m, 17, 2 * m - 1);
    DepthCount(lens, parent[..], 2 * m - 1, m);
    MeasuredOptimal(heap[..], parent[..], weight[..], m, heavy, leaf, f, lens);
    if tooLong {
      DeepLeaf(heap[..], parent[..], weight[..], m, heavy, leaf, lens, at);
      IsOverlong(lens, f, at);
    } else {
      GoodLengths(heap[..], parent[..], weight[..], m, heavy, leaf, lens);
    }
  }

  lemma IsOverlong(lens: seq<nat>, f: seq<nat>, at: nat)
    requires Optimal(lens, f) && at < |lens| && lens[at] > 17
    ensures Overlong(f)
  {
    hide Optimal;
  }

  lemma MeasuredOptimal(heap: seq<int>, parent: seq<int>, weight: seq<int>, m: nat, heavy: seq<int>, leaf: seq<int>,
      f: seq<nat>, lens: seq<nat>)
    requires m > 0 && Building(heap, 1, parent, weight, 2 * m - 1, m, heavy, leaf) && Forest(parent, 2 * m - 1)
      && DepthsAre(lens, parent, 2 * m - 1, m) && |f| == m && Frequent(leaf, f)
    ensures Optimal(lens, f)
  {
    hide Building, Cheap, Grown, Optimal;
    var n := 2 * m - 1;
    BuildingIs(heap, 1, parent, weight, n, m, heavy, leaf);
    forall k | 1 <= k <= m ensures RootOf(parent, n, k) == heap[1] {
      OneRoot(heap, parent, weight, m, heavy, leaf, k);
    }
    OneRoot(heap, parent, weight, m, heavy, leaf, 1);
    TreeOptimal(parent, n, weight, heavy, leaf, f, lens, heap[1]);
  }

  /** BZ2_hbMakeCodeLengths terminates, and gives every symbol a length from 1 to
      17 such that prefix-free codes of these lengths exist. No such codes cost
      less for the frequencies, rescaled as often as a cheapest code for them is
      too long. */
  method MakeCodeLengths(freq: seq<nat>) returns (lens: seq<nat>, ghost times: nat)
    requires 2 <= |freq| <= BZ_MAX_ALPHA_SIZE && Sum1(freq, |freq|) <= MAX_TOTAL
    ensures Good(lens, |freq|) && Optimal(lens, Rescaled(freq, times))
    ensures Tried(freq, times)
  {
    var m := |freq|;
    var heap, weight, parent :=
      new int[BZ_MAX_ALPHA_SIZE + 2](i => 0), new int[2 * BZ_MAX_ALPHA_SIZE](i => 0), new int[2 * BZ_MAX_ALPHA_SIZE];
    assert InRange(heap[..], 2 * BZ_MAX_ALPHA_SIZE);
    NotTried(freq);
    hide LeafWeights, Leaves, InRange, Good, Total, Optimal, Overlong, Rescaled, Frequent, Tried, Scaled;
    ghost var leaf := SetWeights(weight, freq);
    times := 0;
    while true
      invariant LeafWeights(weight[..], leaf, m) && Leaves(leaf, m) && InRange(heap[..], 2 * BZ_MAX_ALPHA_SIZE)
      invariant Frequent(leaf, Rescaled(freq, times)) && Tried(freq, times)
      decreases if m < |leaf| then Total(leaf, m) else 0
    {
      var tooLong;
      lens, tooLong := TryWeights(heap, parent, weight, m, leaf, Rescaled(freq, times));
      if !tooLong {
        break;
      }
      LeavesPositive(leaf, m);
      ScaledTotal(leaf, m);
      FrequentScaled(leaf, freq, times);
      TriedMore(freq, times);
      leaf := Rescale(weight, m, leaf);
      times := times + 1;
    }
  }

  lemma DepthCount(lens: seq<nat>, parent: seq<int>, n: nat, m: nat)
    requires Forest(parent, n) && m <= n && DepthsAre(lens, parent, n, m)
    ensures |lens| == m
  {
  }

  lemma DeepLeaf(heap: seq<int>, parent: seq<int>, weight: seq<int>, m: nat, heavy: seq<int>, leaf: seq<int>,
      lens: seq<nat>, at: nat)
    requires m > 0 && Building(heap, 1, parent, weight, 2 * m - 1, m, heavy, leaf) && Forest(parent, 2 * m - 1)
      && DepthsAre(lens, parent, 2 * m - 1, m) && at < m && lens[at] > 17
    ensures |leaf| == m + 1 && Total(leaf, m) > 2 * m
  {
    hide Building, Total;
    BuildingIs(heap, 1, parent, weight, 2 * m - 1, m, heavy, leaf);
    assert lens[(at + 1) - 1] == DepthOf(parent, 2 * m - 1, at + 1);
    TooLongIsHeavy(heap, parent, weight, m, heavy, leaf, at + 1);
  }

  /** The starting weights: at least one for every symbol. */
  method SetWeights(weight: array<int>, freq: seq<nat>) returns (ghost leaf: seq<int>)
    requires |freq| < weight.Length && weight[0] == 0 && Sum1(freq, |freq|) <= MAX_TOTAL
    modifies weight
    ensures LeafWeights(weight[..], leaf, |freq|) && Leaves(leaf, |freq|) && Frequent(leaf, Rescaled(freq, 0))
  {
    leaf := [0];
    for i := 0 to |freq|
      invariant |leaf| == i + 1 && weight[0] == 0
        && (forall k :: 1 <= k <= i ==> leaf[k] >= 1 && weight[k] == 256 * leaf[k]) && Total(leaf, i) == Sum1(freq, i)
      invariant forall k :: 1 <= k <= i ==> leaf[k] == if freq[k - 1] == 0 then 1 else freq[k - 1]
    {
      ghost var f := if freq[i] == 0 then 1 else freq[i];
      weight[i + 1] := 256 * if freq[i] == 0 then 1 else freq[i];
      TotalMore(leaf, f);
      leaf := leaf + [f];
    }
  }

  lemma TotalMore(leaf: seq<int>, f: int)
    requires |leaf| > 0
    ensures Total(leaf + [f], |leaf|) == Total(leaf, |leaf| - 1) + f
    ensures forall i :: 0 <= i < |leaf| ==> Total(leaf + [f], i) == Total(leaf, i)
  {
    forall i | 0 <= i < |leaf| ensures Total(leaf + [f], i) == Total(leaf, i) {
      TotalSame(leaf, leaf + [f], i);
    }
  }

  lemma {:induction false} TotalSame(leaf: seq<int>, more: seq<int>, i: nat)
    requires i < |leaf| && leaf <= more
    ensures Total(more, i) == Total(leaf, i)
  {
    if i > 0 {
      TotalSame(leaf, more, i - 1);
    }
  }

  lemma LeavesPositive(leaf: seq<int>, m: nat)
    requires Leaves(leaf, m)
    ensures |leaf| == m + 1 && forall k :: 1 <= k <= m ==> leaf[k] >= 1
  {
  }
}
