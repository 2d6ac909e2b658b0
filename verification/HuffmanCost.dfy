/** Why joining the two lightest entries is right: from any lengths that satisfy
    the Kraft inequality come lengths for the joined entries that do, and that
    cost less by at least the weight of the two. */
module HuffmanCost {
  import opened Arithmetic

  function Sum(f: seq<int>, i: nat): int
    requires i <= |f|
  {
    if i == 0 then 0 else Sum(f, i - 1) + f[i - 1]
  }

  lemma {:induction false} SumUpdate(f: seq<int>, j: nat, v: int, i: nat)
    requires j < |f| && i <= |f|
    ensures Sum(f[j := v], i) == Sum(f, i) + if j < i then v - f[j] else 0
  {
    if i > 0 {
      SumUpdate(f, j, v, i - 1);
    }
  }

  lemma {:induction false} SumNotNegative(f: seq<int>, i: nat)
    requires i <= |f| && forall k :: 0 <= k < |f| ==> f[k] >= 0
    ensures Sum(f, i) >= 0
  {
    if i > 0 {
      SumNotNegative(f, i - 1);
    }
  }

  lemma {:induction false} SumMultiple(f: seq<int>, c: seq<int>, d: int, i: nat)
    requires i <= |f| == |c| && forall k :: 0 <= k < |f| ==> f[k] == d * c[k]
    ensures Sum(f, i) == d * Sum(c, i)
  {
    if i > 0 {
      SumMultiple(f, c, d, i - 1);
    }
  }

  /** Two entries are no more than the sum of all. */
  lemma SumOfTwo(f: seq<int>, x: nat, y: nat)
    requires x < |f| && y < |f| && x != y && forall k :: 0 <= k < |f| ==> f[k] >= 0
    ensures Sum(f, |f|) >= f[x] + f[y]
  {
    SumUpdate(f, x, 0, |f|);
    SumUpdate(f[x := 0], y, 0, |f|);
    SumNotNegative(f[x := 0][y := 0], |f|);
  }

  // ----- lengths of some of the entries ------------------------------------

  /** The share of the codes each entry takes, in units of 2^-limit. */
  ghost function Shares(on: seq<bool>, l: seq<nat>, limit: nat): (s: seq<int>)
    requires |on| == |l|
    ensures |s| == |l| && forall k :: 0 <= k < |l| ==>
      s[k] == if on[k] && l[k] <= limit then Pow2(limit - l[k]) else 0
  {
    seq(|l|, k requires 0 <= k < |l| => if on[k] && l[k] <= limit then Pow2(limit - l[k]) else 0)
  }

  ghost function Costs(on: seq<bool>, w: seq<int>, l: seq<nat>): (s: seq<int>)
    requires |on| == |l| == |w|
    ensures |s| == |l| && forall k :: 0 <= k < |l| ==> s[k] == if on[k] then w[k] * l[k] else 0
  {
    seq(|l|, k requires 0 <= k < |l| => if on[k] then w[k] * l[k] else 0)
  }

  ghost function Taken(on: seq<bool>, l: seq<nat>, limit: nat): int
    requires |on| == |l|
  {
    Sum(Shares(on, l, limit), |l|)
  }

  ghost function Cost(on: seq<bool>, w: seq<int>, l: seq<nat>): int
    requires |on| == |l| == |w|
  {
    Sum(Costs(on, w, l), |l|)
  }

  /** The Kraft inequality for the entries that count. */
  ghost predicate Fits(on: seq<bool>, l: seq<nat>, limit: nat) {
    |on| == |l| && (forall k :: 0 <= k < |l| && on[k] ==> l[k] <= limit) && Taken(on, l, limit) <= Pow2(limit)
  }

  /** The entries that count have weights. */
  ghost predicate Weighted(on: seq<bool>, w: seq<int>) {
    |on| == |w| && forall k :: 0 <= k < |on| && on[k] ==> w[k] >= 0
  }

  lemma CostNotNegative(on: seq<bool>, w: seq<int>, l: seq<nat>)
    requires Weighted(on, w) && |l| == |on|
    ensures Cost(on, w, l) >= 0
  {
    var c := Costs(on, w, l);
    forall k | 0 <= k < |c| ensures c[k] >= 0 {
      if on[k] {
        NotNegative(w[k], l[k]);
      }
    }
    SumNotNegative(c, |c|);
  }

  lemma NotNegative(a: nat, b: nat)
    ensures a * b >= 0
  {
  }

  /** What a new length for one entry changes. */
  lemma Relength(on: seq<bool>, w: seq<int>, l: seq<nat>, limit: nat, k: nat, v: nat)
    requires |on| == |l| == |w| && k < |l| && on[k] && l[k] <= limit && v <= limit
    ensures Taken(on, l[k := v], limit) == Taken(on, l, limit) - Pow2(limit - l[k]) + Pow2(limit - v)
    ensures Cost(on, w, l[k := v]) == Cost(on, w, l) - w[k] * l[k] + w[k] * v
  {
    hide Pow2;
    assert Shares(on, l[k := v], limit) == Shares(on, l, limit)[k := Pow2(limit - v)];
    assert Costs(on, w, l[k := v]) == Costs(on, w, l)[k := w[k] * v];
    SumUpdate(Shares(on, l, limit), k, Pow2(limit - v), |l|);
    SumUpdate(Costs(on, w, l), k, w[k] * v, |l|);
  }

  /** What taking one entry out changes. */
  lemma Without(on: seq<bool>, w: seq<int>, l: seq<nat>, limit: nat, k: nat)
    requires |on| == |l| == |w| && k < |l| && on[k] && l[k] <= limit
    ensures Taken(on[k := false], l, limit) == Taken(on, l, limit) - Pow2(limit - l[k])
    ensures Cost(on[k := false], w, l) == Cost(on, w, l) - w[k] * l[k]
  {
    hide Pow2;
    assert Shares(on[k := false], l, limit) == Shares(on, l, limit)[k := 0];
    assert Costs(on[k := false], w, l) == Costs(on, w, l)[k := 0];
    SumUpdate(Shares(on, l, limit), k, 0, |l|);
    SumUpdate(Costs(on, w, l), k, 0, |l|);
  }

  /** What one entry more changes. */
  lemma With(on: seq<bool>, w: seq<int>, l: seq<nat>, limit: nat, k: nat, u: int, v: nat)
    requires |on| == |l| == |w| && k < |l| && !on[k] && v <= limit
    ensures Taken(on[k := true], l[k := v], limit) == Taken(on, l, limit) + Pow2(limit - v)
    ensures Cost(on[k := true], w[k := u], l[k := v]) == Cost(on, w, l) + u * v
  {
    hide Pow2;
    assert Shares(on[k := true], l[k := v], limit) == Shares(on, l, limit)[k := Pow2(limit - v)];
    assert Costs(on[k := true], w[k := u], l[k := v]) == Costs(on, w, l)[k := u * v];
    SumUpdate(Shares(on, l, limit), k, Pow2(limit - v), |l|);
    SumUpdate(Costs(on, w, l), k, u * v, |l|);
  }

  // ----- two entries are longest -------------------------------------------

  ghost predicate Deepest(on: seq<bool>, l: seq<nat>, p: nat) {
    p < |on| == |l| && on[p] && forall k :: 0 <= k < |l| && on[k] ==> l[k] <= l[p]
  }

  lemma SomeDeepest(on: seq<bool>, l: seq<nat>, x: nat) returns (p: nat)
    requires x < |on| == |l| && on[x]
    ensures Deepest(on, l, p)
  {
    p := x;
    for i := 0 to |l|
      invariant p < |on| && on[p] && forall k :: 0 <= k < i && on[k] ==> l[k] <= l[p]
    {
      if on[i] && l[i] > l[p] {
        p := i;
      }
    }
  }

  /** Two entries cannot both be of length zero. */
  lemma NotFlat(on: seq<bool>, l: seq<nat>, limit: nat, p: nat, x: nat, y: nat)
    requires Fits(on, l, limit) && Deepest(on, l, p) && x < |on| && y < |on| && x != y && on[x] && on[y]
    ensures l[p] >= 1
  {
    if l[p] == 0 {
      SumOfTwo(Shares(on, l, limit), x, y);
    }
  }

  lemma Room(p: nat, q: int, top: int)
    requires p >= 1 && (2 * p) * q + p <= (2 * p) * top
    ensures (2 * p) * q + 2 * p <= (2 * p) * top
  {
    if q >= top {
      var d := q - top;
      assert (2 * p) * q == (2 * p) * top + (2 * p) * d;
      NotNegative(2 * p, d);
    } else {
      var d := top - q - 1;
      assert (2 * p) * top == (2 * p) * q + 2 * p + (2 * p) * d;
      NotNegative(2 * p, d);
    }
  }

  /** Entries of length below d take a multiple of two units of length d. */
  lemma BelowTake(on: seq<bool>, l: seq<nat>, limit: nat, d: nat) returns (q: int)
    requires |on| == |l| && 1 <= d <= limit && forall k :: 0 <= k < |l| && on[k] ==> l[k] < d
    ensures Taken(on, l, limit) == (2 * Pow2(limit - d)) * q
  {
    var c := seq(|l|, k requires 0 <= k < |l| => if on[k] then Pow2(d - 1 - l[k]) else 0);
    var s := Shares(on, l, limit);
    var unit := 2 * Pow2(limit - d);
    forall k | 0 <= k < |l| ensures s[k] == unit * c[k] {
      if on[k] {
        Pow2Add(limit - d + 1, d - 1 - l[k]);
      }
    }
    SumMultiple(s, c, unit, |l|);
    q := Sum(c, |l|);
  }

  /** If only one entry is longest, there is room for it to be shorter. */
  lemma Shorten(on: seq<bool>, w: seq<int>, l: seq<nat>, limit: nat, p: nat)
    requires Fits(on, l, limit) && Deepest(on, l, p) && l[p] >= 1 && |w| == |l|
      && forall k :: 0 <= k < |l| && on[k] && k != p ==> l[k] < l[p]
    ensures Fits(on, l[p := l[p] - 1], limit)
    ensures Cost(on, w, l[p := l[p] - 1]) == Cost(on, w, l) - w[p]
  {
    hide Taken, Cost, Pow2;
    var d := l[p];
    var q := BelowTake(on[p := false], l, limit, d);
    Without(on, w, l, limit, p);
    Pow2Add(limit - d + 1, d - 1);
    UnitsAdd(limit, d);
    Room(Pow2(limit - d), q, Pow2(d - 1));
    Relength(on, w, l, limit, p, d - 1);
    LessByOne(w[p], d);
  }

  lemma LessByOne(u: int, d: int)
    ensures u * (d - 1) == u * d - u
  {
  }

  /** Lengths that cost no more, with two entries longest. */
  lemma {:induction false} TwoDeepest(on: seq<bool>, w: seq<int>, l: seq<nat>, limit: nat, p: nat, x: nat, y: nat)
      returns (l': seq<nat>, q: nat)
    requires Fits(on, l, limit) && Weighted(on, w) && Deepest(on, l, p) && x < |on| && y < |on| && x != y && on[x]
      && on[y]
    ensures Fits(on, l', limit) && Cost(on, w, l') <= Cost(on, w, l)
    ensures Deepest(on, l', p) && q < |on| && on[q] && q != p && l'[q] == l'[p] >= 1
    decreases l[p]
  {
    hide Fits, Cost;
    FitsLength(on, l, limit);
    NotFlat(on, l, limit, p, x, y);
    if r: nat :| r < |on| && on[r] && r != p && l[r] == l[p] {
      l', q := l, r;
    } else {
      Shorten(on, w, l, limit, p);
      l', q := TwoDeepest(on, w, l[p := l[p] - 1], limit, p, x, y);
    }
  }

  lemma FitsLength(on: seq<bool>, l: seq<nat>, limit: nat)
    requires Fits(on, l, limit)
    ensures |on| == |l| && forall k :: 0 <= k < |l| && on[k] ==> l[k] <= limit
  {
  }

  // ----- the lightest are longest ------------------------------------------

  lemma SwapCost(u: int, v: int, a: int, b: int)
    requires u <= v && a <= b
    ensures u * b + v * a <= u * a + v * b
  {
    var d, e: nat := v - u, b - a;
    assert (u * a + v * b) - (u * b + v * a) == d * e;
    NotNegative(d, e);
  }

  /** A lighter entry takes the greater length. */
  lemma Swap(on: seq<bool>, w: seq<int>, l: seq<nat>, limit: nat, i: nat, p: nat)
    requires Fits(on, l, limit) && |w| == |l| && i < |l| && p < |l| && on[i] && on[p] && w[i] <= w[p] && l[i] <= l[p]
    ensures var l' := l[i := l[p]][p := l[i]];
      Fits(on, l', limit) && Cost(on, w, l') <= Cost(on, w, l)
  {
    if i != p {
      hide Taken, Cost;
      Relength(on, w, l, limit, i, l[p]);
      Relength(on, w, l[i := l[p]], limit, p, l[i]);
      SwapCost(w[i], w[p], l[i], l[p]);
    } else {
      assert l[i := l[p]][p := l[i]] == l;
    }
  }

  /** No entry but these two is lighter than either. */
  ghost predicate Lightest(on: seq<bool>, w: seq<int>, x: nat, y: nat) {
    && x < |on| == |w| && y < |on| && x != y && on[x] && on[y]
    && forall r :: 0 <= r < |on| && on[r] && r != x && r != y ==> w[r] >= w[x] && w[r] >= w[y]
  }

  /** Lengths that cost no more, with these two longest. */
  lemma LightestDeepest(on: seq<bool>, w: seq<int>, l: seq<nat>, limit: nat, x: nat, y: nat) returns (l': seq<nat>)
    requires Fits(on, l, limit) && Weighted(on, w) && Lightest(on, w, x, y)
    ensures Fits(on, l', limit) && Cost(on, w, l') <= Cost(on, w, l)
    ensures l'[x] == l'[y] >= 1 && l'[x] <= limit
  {
    FitsLength(on, l, limit);
    var p := SomeDeepest(on, l, x);
    var l1, q := TwoDeepest(on, w, l, limit, p, x, y);
    hide Fits, Cost;
    FitsLength(on, l1, limit);
    if p == y {
      p, q := q, p;
    }
    Swap(on, w, l1, limit, x, p);
    var l2 := l1[x := l1[p]][p := l1[x]];
    FitsLength(on, l2, limit);
    var r := if q == x then p else q;
    Swap(on, w, l2, limit, y, r);
    l' := l2[y := l2[r]][r := l2[y]];
    FitsLength(on, l', limit);
  }

  lemma MergedCost(u: int, v: int, d: int)
    ensures u * d + v * d == (u + v) * (d - 1) + u + v
  {
  }

  lemma UnitsAdd(limit: nat, d: nat)
    requires 1 <= d <= limit
    ensures Pow2(limit - (d - 1)) == 2 * Pow2(limit - d)
  {
  }

  /** The two lightest become one entry z, which is one shorter. */
  lemma Merge(on: seq<bool>, w: seq<int>, l: seq<nat>, limit: nat, x: nat, y: nat, z: nat)
    requires Fits(on, l, limit) && |w| == |l| && x < |l| && y < |l| && x != y && on[x] && on[y] && z < |l| && !on[z]
      && 1 <= l[x] == l[y] <= limit
    ensures var on', w', l' := on[x := false][y := false][z := true], w[z := w[x] + w[y]], l[z := l[x] - 1];
      Fits(on', l', limit) && Cost(on', w', l') + w[x] + w[y] == Cost(on, w, l)
  {
    hide Taken, Cost;
    Without(on, w, l, limit, x);
    Without(on[x := false], w, l, limit, y);
    With(on[x := false][y := false], w, l, limit, z, w[x] + w[y], l[x] - 1);
    UnitsAdd(limit, l[x]);
    MergedCost(w[x], w[y], l[x]);
  }

  /** What joining the two lightest entries leaves to do costs less by at least
      their weight, whatever the lengths. */
  lemma Reduce(on: seq<bool>, w: seq<int>, l: seq<nat>, limit: nat, x: nat, y: nat, z: nat) returns (l': seq<nat>)
    requires Fits(on, l, limit) && Weighted(on, w) && Lightest(on, w, x, y) && z < |on| && !on[z]
    ensures |l'| == |on| && Fits(on[x := false][y := false][z := true], l', limit)
    ensures Cost(on[x := false][y := false][z := true], w[z := w[x] + w[y]], l') + w[x] + w[y] <= Cost(on, w, l)
  {
    hide Fits, Cost;
    FitsLength(on, l, limit);
    var l2 := LightestDeepest(on, w, l, limit, x, y);
    FitsLength(on, l2, limit);
    Merge(on, w, l2, limit, x, y, z);
    l' := l2[z := l2[x] - 1];
  }
}
