/** The heap of tree roots, by weight, with a sentinel in entry 0. */
module HuffmanHeap {
  import opened Permutations
  import opened FallbackQSort

  /** Entry j is below entry i. */
  predicate Edge(i: int, j: int, n: int) {
    1 <= i && 2 <= j <= n && (j == 2 * i || j == 2 * i + 1)
  }

  /** Entries 1..n are nodes with weights; entry 0 is the sentinel. */
  ghost predicate Nodes(w: seq<int>, h: seq<int>, n: nat) {
    n < |h| && InRange(h, |w|) && h[0] == 0 && |w| > 0 && w[0] == 0
  }

  ghost predicate HeapOrder(w: seq<int>, h: seq<int>, n: nat)
    requires Nodes(w, h, n)
  {
    forall i, j :: Edge(i, j, n) ==> w[h[i]] <= w[h[j]]
  }

  /** The lightest node is on top. */
  lemma {:induction false} TopIsLeast(w: seq<int>, h: seq<int>, n: nat, j: nat)
    requires Nodes(w, h, n) && HeapOrder(w, h, n) && 1 <= j <= n
    ensures w[h[1]] <= w[h[j]]
  {
    if j > 1 {
      TopIsLeast(w, h, n, j / 2);
      assert Edge(j / 2, j, n);
    }
  }

  // ----- moving up ---------------------------------------------------------

  /** tmp is on its way up; entry z is where it would go now. */
  ghost predicate Rising(w: seq<int>, h: seq<int>, n: nat, z: nat, tmp: int)
    requires Nodes(w, h, n) && 1 <= z <= n && 0 <= tmp < |w|
  {
    && (forall i, j :: Edge(i, j, n) && i != z && j != z ==> w[h[i]] <= w[h[j]])
    && (forall j :: Edge(z, j, n) ==> w[tmp] <= w[h[j]])
    && (forall j :: Edge(z, j, n) && z > 1 ==> w[h[z / 2]] <= w[h[j]])
  }

  lemma RiseOn(w: seq<int>, h: seq<int>, n: nat, z: nat, tmp: int)
    requires Nodes(w, h, n) && 1 < z <= n && 0 <= tmp < |w| && Rising(w, h, n, z, tmp) && w[tmp] < w[h[z / 2]]
    ensures Nodes(w, h[z := h[z / 2]], n) && Rising(w, h[z := h[z / 2]], n, z / 2, tmp)
  {
    var h', y := h[z := h[z / 2]], z / 2;
    assert Edge(y, z, n);
    forall i, j | Edge(i, j, n) && i != y && j != y ensures w[h'[i]] <= w[h'[j]] {
      if i == z {
        assert w[h[y]] <= w[h[j]];
      } else if j != z {
        assert w[h[i]] <= w[h[j]];
      }
    }
    forall j | Edge(y, j, n) ensures w[tmp] <= w[h'[j]] && (y > 1 ==> w[h'[y / 2]] <= w[h'[j]]) {
      if j != z {
        assert w[h[y]] <= w[h[j]];
      }
      if y > 1 {
        assert Edge(y / 2, y, n);
        assert w[h[y / 2]] <= w[h[y]];
      }
    }
  }

  lemma RiseEnds(w: seq<int>, h: seq<int>, n: nat, z: nat, tmp: int)
    requires Nodes(w, h, n) && 1 <= z <= n && 0 <= tmp < |w| && Rising(w, h, n, z, tmp) && w[tmp] >= w[h[z / 2]]
    ensures Nodes(w, h[z := tmp], n) && HeapOrder(w, h[z := tmp], n)
  {
    var h' := h[z := tmp];
    forall i, j | Edge(i, j, n) ensures w[h'[i]] <= w[h'[j]] {
      if j == z {
        assert i == z / 2;
      } else if i != z {
        assert w[h[i]] <= w[h[j]];
      }
    }
  }

  /** UPHEAP: a node added at the end finds its place. */
  method UpHeap(heap: array<int>, w: seq<int>, n: nat)
    requires n >= 1 && Nodes(w, heap[..], n) && HeapOrder(w, heap[..], n - 1) && w[heap[n]] > 0
    modifies heap
    ensures Nodes(w, heap[..], n) && HeapOrder(w, heap[..], n) && Permuted(old(heap[..]), heap[..], 1, n)
  {
    ghost var start, s := heap[..], heap[..];
    var zz, tmp := n, heap[n];
    assert Rising(w, s, n, zz, tmp) by {
      forall i, j | Edge(i, j, n) && i != zz && j != zz ensures w[s[i]] <= w[s[j]] {
        assert Edge(i, j, n - 1);
      }
    }
    assert s[n := tmp] == s;
    hide Permuted, Rising, HeapOrder;
    PermutedRefl(start, 1, n);
    while w[tmp] < w[heap[zz / 2]]
      invariant 1 <= zz <= n && s == heap[..] && Nodes(w, s, n) && Rising(w, s, n, zz, tmp)
        && Permuted(start, s[zz := tmp], 1, n)
      decreases zz
    {
      if zz == 1 {
        assert false;
      }
      RiseOn(w, s, n, zz, tmp);
      ShiftPermutes(start, s, zz, zz / 2, tmp, 1, n);
      heap[zz] := heap[zz / 2];
      s := s[zz := s[zz / 2]];
      zz := zz / 2;
    }
    RiseEnds(w, s, n, zz, tmp);
    heap[zz] := tmp;
    assert heap[..] == s[zz := tmp];
  }

  // ----- moving down -------------------------------------------------------

  ghost predicate Sinking(w: seq<int>, h: seq<int>, n: nat, z: nat, tmp: int)
    requires Nodes(w, h, n) && 1 <= z < |h| && 0 <= tmp < |w|
  {
    && (forall i, j :: Edge(i, j, n) && i != z && j != z ==> w[h[i]] <= w[h[j]])
    && (forall j :: Edge(z, j, n) && z > 1 ==> w[h[z / 2]] <= w[h[j]])
    && (z > 1 ==> w[h[z / 2]] <= w[tmp])
  }

  /** y is the lighter entry below z. */
  ghost predicate LighterChild(w: seq<int>, h: seq<int>, n: nat, z: nat, y: nat)
    requires Nodes(w, h, n)
  {
    Edge(z, y, n) && forall j :: Edge(z, j, n) ==> w[h[y]] <= w[h[j]]
  }

  lemma SinkOn(w: seq<int>, h: seq<int>, n: nat, z: nat, y: nat, tmp: int)
    requires Nodes(w, h, n) && 1 <= z <= n && 0 <= tmp < |w| && Sinking(w, h, n, z, tmp) && LighterChild(w, h, n, z, y)
      && w[h[y]] <= w[tmp]
    ensures Nodes(w, h[z := h[y]], n) && Sinking(w, h[z := h[y]], n, y, tmp)
  {
    var h' := h[z := h[y]];
    forall i, j | Edge(i, j, n) && i != y && j != y ensures w[h'[i]] <= w[h'[j]] {
      if i == z {
        assert w[h[y]] <= w[h[j]];
      } else if j == z {
        assert i == z / 2 && w[h[z / 2]] <= w[h[y]];
      } else {
        assert w[h[i]] <= w[h[j]];
      }
    }
    forall j | Edge(y, j, n) ensures w[h'[y / 2]] <= w[h'[j]] {
      assert y / 2 == z && w[h[y]] <= w[h[j]];
    }
  }

  lemma SinkEnds(w: seq<int>, h: seq<int>, n: nat, z: nat, tmp: int)
    requires Nodes(w, h, n) && 1 <= z < |h| && 0 <= tmp < |w| && Sinking(w, h, n, z, tmp)
      && forall j :: Edge(z, j, n) ==> w[tmp] <= w[h[j]]
    ensures Nodes(w, h[z := tmp], n) && HeapOrder(w, h[z := tmp], n)
  {
    var h' := h[z := tmp];
    forall i, j | Edge(i, j, n) ensures w[h'[i]] <= w[h'[j]] {
      if j == z {
        assert i == z / 2;
      } else if i != z {
        assert w[h[i]] <= w[h[j]];
      }
    }
  }

  lemma Lighter(w: seq<int>, h: seq<int>, n: nat, z: nat, y: nat)
    requires Nodes(w, h, n) && 1 <= z && 2 * z <= n
    requires y == if 2 * z < n && w[h[2 * z + 1]] < w[h[2 * z]] then 2 * z + 1 else 2 * z
    ensures LighterChild(w, h, n, z, y)
  {
  }

  lemma StopsAbove(w: seq<int>, h: seq<int>, n: nat, z: nat, y: nat, tmp: int)
    requires Nodes(w, h, n) && 1 <= z < |h| && 0 <= tmp < |w| && Sinking(w, h, n, z, tmp)
      && LighterChild(w, h, n, z, y) && w[tmp] < w[h[y]]
    ensures Nodes(w, h[z := tmp], n) && HeapOrder(w, h[z := tmp], n)
  {
    SinkEnds(w, h, n, z, tmp);
  }

  lemma StopsAtLeaf(w: seq<int>, h: seq<int>, n: nat, z: nat, tmp: int)
    requires Nodes(w, h, n) && 1 <= z < |h| && 0 <= tmp < |w| && Sinking(w, h, n, z, tmp) && 2 * z > n
    ensures Nodes(w, h[z := tmp], n) && HeapOrder(w, h[z := tmp], n)
  {
    SinkEnds(w, h, n, z, tmp);
  }

  lemma NodeInRange(w: seq<int>, h: seq<int>, n: nat, j: nat)
    requires Nodes(w, h, n) && j < |h|
    ensures 0 <= h[j] < |w| && n < |h|
  {
  }

  /** DOWNHEAP(1): a node put on top finds its place. */
  method DownHeap(heap: array<int>, w: seq<int>, n: nat)
    requires Nodes(w, heap[..], n) && heap.Length > 1 && Sinking(w, heap[..], n, 1, heap[1])
    modifies heap
    ensures Nodes(w, heap[..], n) && HeapOrder(w, heap[..], n)
      && Permuted(old(heap[..]), heap[..], 1, if n < 1 then 1 else n)
  {
    hide Permuted, Sinking, HeapOrder, Nodes, LighterChild;
    ghost var start, s, top := heap[..], heap[..], if n < 1 then 1 else n;
    var zz, tmp := 1, heap[1];
    NodeInRange(w, s, n, 1);
    assert s[1 := tmp] == s;
    PermutedRefl(start, 1, top);
    while true
      invariant 1 <= zz <= top && s == heap[..] && Nodes(w, s, n) && Sinking(w, s, n, zz, tmp)
        && Permuted(start, s[zz := tmp], 1, top)
      decreases n - zz
    {
      var yy := 2 * zz;
      if yy > n {
        StopsAtLeaf(w, s, n, zz, tmp);
        break;
      }
      NodeInRange(w, s, n, yy);
      NodeInRange(w, s, n, if yy < n then yy + 1 else yy);
      if yy < n && w[heap[yy + 1]] < w[heap[yy]] {
        yy := yy + 1;
      }
      Lighter(w, s, n, zz, yy);
      if w[tmp] < w[heap[yy]] {
        StopsAbove(w, s, n, zz, yy, tmp);
        break;
      }
      SinkOn(w, s, n, zz, yy, tmp);
      ShiftPermutes(start, s, zz, yy, tmp, 1, top);
      heap[zz] := heap[yy];
      s := s[zz := s[yy]];
      zz := yy;
    }
    heap[zz] := tmp;
    assert heap[..] == s[zz := tmp];
  }
}
