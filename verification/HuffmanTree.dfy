/** Trees given by parent links, built by joining roots two at a time: how deep
    leaves lie, and what the leaves under a root add up to. */
module HuffmanTree {
  import opened Arithmetic

  const ROOT := -1

  /** Nodes are 1..n; a parent has a greater number than its children. */
  ghost predicate Forest(parent: seq<int>, n: nat) {
    n < |parent| && forall k :: 1 <= k <= n ==> parent[k] == ROOT || k < parent[k] <= n
  }

  /** How many links lead from k to its root. */
  ghost function DepthOf(parent: seq<int>, n: nat, k: nat): (d: nat)
    requires Forest(parent, n) && 1 <= k <= n
    ensures d <= n - k
    decreases n - k
  {
    if parent[k] == ROOT then 0 else 1 + DepthOf(parent, n, parent[k])
  }

  ghost function RootOf(parent: seq<int>, n: nat, k: nat): (r: nat)
    requires Forest(parent, n) && 1 <= k <= n
    ensures k <= r <= n && parent[r] == ROOT
    decreases n - k
  {
    if parent[k] == ROOT then k else RootOf(parent, n, parent[k])
  }

  /** Two roots get a new common parent. */
  ghost function Joined(parent: seq<int>, n: nat, x: nat, y: nat): (p: seq<int>)
    requires Forest(parent, n) && 1 <= x <= n && 1 <= y <= n && n + 1 < |parent|
    ensures Forest(p, n + 1)
  {
    parent[x := n + 1][y := n + 1][n + 1 := ROOT]
  }

  lemma {:induction false} JoinedWalk(parent: seq<int>, n: nat, x: nat, y: nat, k: nat)
    requires Forest(parent, n) && 1 <= x <= n && 1 <= y <= n && n + 1 < |parent| && parent[x] == ROOT
      && parent[y] == ROOT && 1 <= k <= n
    ensures var p, r := Joined(parent, n, x, y), RootOf(parent, n, k);
      && RootOf(p, n + 1, k) == (if r == x || r == y then n + 1 else r)
      && DepthOf(p, n + 1, k) == DepthOf(parent, n, k) + if r == x || r == y then 1 else 0
    decreases n - k
  {
    var p := Joined(parent, n, x, y);
    assert RootOf(p, n + 1, n + 1) == n + 1 && DepthOf(p, n + 1, n + 1) == 0;
    if parent[k] != ROOT {
      JoinedWalk(parent, n, x, y, parent[k]);
    }
  }

  // ----- sums over the leaves under a root ---------------------------------

  /** What the leaves 1..i under root r add up to. */
  ghost function Under(values: seq<int>, roots: seq<int>, r: int, i: nat): int
    requires i < |values| == |roots|
  {
    if i == 0 then 0 else Under(values, roots, r, i - 1) + if roots[i] == r then values[i] else 0
  }

  /** Roots of all leaves, and shares of a whole that halve with every link. */
  ghost function Roots(parent: seq<int>, n: nat, m: nat): (s: seq<int>)
    requires Forest(parent, n) && m <= n
    ensures |s| == m + 1 && forall k :: 1 <= k <= m ==> s[k] == RootOf(parent, n, k)
  {
    seq(m + 1, k requires 0 <= k <= m => if k == 0 then 0 else RootOf(parent, n, k))
  }

  /** Depths are at most this. */
  const LIMIT := 600

  ghost function Shares(parent: seq<int>, n: nat, m: nat): (s: seq<int>)
    requires Forest(parent, n) && m <= n <= LIMIT
    ensures |s| == m + 1 && forall k :: 1 <= k <= m ==> s[k] == Pow2(LIMIT - DepthOf(parent, n, k))
  {
    seq(m + 1, k requires 0 <= k <= m => if k == 0 then 0 else Pow2(LIMIT - DepthOf(parent, n, k)))
  }

  /** Joining two roots joins what is under them. */
  lemma {:induction false} UnderJoined(values: seq<int>, roots: seq<int>, roots': seq<int>, x: int, y: int, z: int,
      i: nat)
    requires i < |values| == |roots| == |roots'| && x != y
      && forall k :: 1 <= k <= i ==> roots[k] != z && roots'[k] == if roots[k] == x || roots[k] == y then z else roots[k]
    ensures Under(values, roots', z, i) == Under(values, roots, x, i) + Under(values, roots, y, i)
    ensures forall r :: r != x && r != y && r != z ==> Under(values, roots', r, i) == Under(values, roots, r, i)
  {
    if i > 0 {
      UnderJoined(values, roots, roots', x, y, z, i - 1);
    }
  }

  /** Halving the values of some leaves. */
  lemma {:induction false} UnderHalved(values: seq<int>, values': seq<int>, roots: seq<int>, z: int, i: nat)
    requires i < |values| == |values'| == |roots|
      && forall k :: 1 <= k <= i ==> if roots[k] == z then values[k] == 2 * values'[k] else values[k] == values'[k]
    ensures Under(values, roots, z, i) == 2 * Under(values', roots, z, i)
    ensures forall r :: r != z ==> Under(values', roots, r, i) == Under(values, roots, r, i)
  {
    if i > 0 {
      UnderHalved(values, values', roots, z, i - 1);
    }
  }

  lemma {:induction false} UnderOne(values: seq<int>, roots: seq<int>, r: nat, i: nat)
    requires i < |values| == |roots| && r > 0 && forall k :: 1 <= k <= i ==> roots[k] == k
    ensures Under(values, roots, r, i) == if r <= i then values[r] else 0
  {
    if i > 0 {
      UnderOne(values, roots, r, i - 1);
    }
  }

  // ----- Fibonacci numbers -------------------------------------------------

  function Fib(n: nat): (f: nat)
    ensures n > 0 ==> f >= 1
  {
    if n == 0 then 0 else if n == 1 then 1 else Fib(n - 1) + Fib(n - 2)
  }

  lemma {:induction false} FibMonotone(m: nat, n: nat)
    requires m <= n
    ensures Fib(m) <= Fib(n)
    decreases n
  {
    if m < n {
      FibMonotone(m, n - 1);
    }
  }

  lemma FibSmall()
    ensures Fib(14) == 377 && Fib(15) == 610
  {
    assert Fib(2) == 1 && Fib(3) == 2 && Fib(4) == 3 && Fib(5) == 5 && Fib(6) == 8 && Fib(7) == 13;
    assert Fib(8) == 21 && Fib(9) == 34 && Fib(10) == 55 && Fib(11) == 89 && Fib(12) == 144 && Fib(13) == 233;
  }

  lemma FibLarge()
    ensures Fib(31) == 1346269
  {
    FibSmall();
    assert Fib(16) == 987 && Fib(17) == 1597 && Fib(18) == 2584 && Fib(19) == 4181 && Fib(20) == 6765
      && Fib(21) == 10946;
    assert Fib(22) == 17711 && Fib(23) == 28657 && Fib(24) == 46368 && Fib(25) == 75025 && Fib(26) == 121393;
    assert Fib(27) == 196418 && Fib(28) == 317811 && Fib(29) == 514229 && Fib(30) == 832040;
  }
}
