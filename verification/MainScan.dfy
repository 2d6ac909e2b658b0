/** Why one scan over a sorted big bucket sorts the small buckets of all
    rotations one byte longer: the predecessors of rotations in order, sorted
    out by their first byte, are in order again. For the bucket of the repeated
    byte the scan feeds on its own output. */
module MainScan {
  import opened Rotations
  import opened Bwt
  import opened MainSimpleSort
  import opened MainBuckets

  /** In order, upwards or downwards. */
  ghost predicate Leq(rank: seq<int>, up: bool, x: int, y: int)
    requires 0 <= x < |rank| && 0 <= y < |rank|
  {
    if up then rank[x] <= rank[y] else rank[y] <= rank[x]
  }

  /** Rotations that begin with ss, each once, in order. */
  ghost predicate Ordered(b: seq<Byte>, rank: seq<int>, up: bool, s: seq<int>) {
    && b != [] && |rank| == |b| && (forall i :: 0 <= i < |s| ==> 0 <= s[i] < |b|)
    && (forall i, j :: 0 <= i < j < |s| ==> s[i] != s[j] && Leq(rank, up, s[i], s[j]))
  }

  /** The predecessors that begin with c, in the order of the scan. */
  ghost function Preds(b: seq<Byte>, s: seq<int>, c: int): seq<int>
    requires b != [] && forall i :: 0 <= i < |s| ==> 0 <= s[i] < |b|
  {
    if s == [] then []
    else
      var k := Prev(|b|, s[|s| - 1]);
      Preds(b, s[..|s| - 1], c) + if b[k] == c then [k] else []
  }

  lemma PredsMore(b: seq<Byte>, s: seq<int>, x: int, c: int)
    requires b != [] && (forall i :: 0 <= i < |s| ==> 0 <= s[i] < |b|) && 0 <= x < |b|
    ensures Preds(b, s + [x], c) == Preds(b, s, c) + if b[Prev(|b|, x)] == c then [Prev(|b|, x)] else []
  {
    assert (s + [x])[..|s|] == s;
  }

  /** What the predecessors are. */
  lemma {:induction false} PredsAre(b: seq<Byte>, s: seq<int>, c: int, k: int)
    requires b != [] && forall i :: 0 <= i < |s| ==> 0 <= s[i] < |b|
    ensures k in Preds(b, s, c) <==> exists i :: 0 <= i < |s| && Prev(|b|, s[i]) == k && b[k] == c
  {
    if s != [] {
      var front, x := s[..|s| - 1], s[|s| - 1];
      assert s == front + [x];
      PredsAre(b, front, c, k);
      PredsMore(b, front, x, c);
      if k in Preds(b, front, c) {
        var i :| 0 <= i < |front| && Prev(|b|, front[i]) == k && b[k] == c;
        assert s[i] == front[i];
      }
      if exists i :: 0 <= i < |s| && Prev(|b|, s[i]) == k && b[k] == c {
        var i :| 0 <= i < |s| && Prev(|b|, s[i]) == k && b[k] == c;
        if i < |front| {
          assert front[i] == s[i];
        }
      }
    }
  }

  lemma LeqPrev(b: seq<Byte>, rank: seq<int>, up: bool, x: nat, y: nat)
    requires Ranked(b, rank) && x < |b| && y < |b| && Leq(rank, up, x, y) && b[Prev(|b|, x)] == b[Prev(|b|, y)]
    ensures Leq(rank, up, Prev(|b|, x), Prev(|b|, y))
  {
    if up {
      PrevOrder(b, rank, x, y);
    } else {
      PrevOrder(b, rank, y, x);
    }
  }

  /** The predecessors of rotations in order are in order. */
  lemma {:induction false} PredsOrdered(b: seq<Byte>, rank: seq<int>, up: bool, s: seq<int>, c: int)
    requires Ranked(b, rank) && Ordered(b, rank, up, s)
    ensures Ordered(b, rank, up, Preds(b, s, c)) && forall i :: 0 <= i < |Preds(b, s, c)| ==> b[Preds(b, s, c)[i]] == c
  {
    if s != [] {
      var front, x := s[..|s| - 1], s[|s| - 1];
      assert s == front + [x];
      assert Ordered(b, rank, up, front);
      PredsOrdered(b, rank, up, front, c);
      var q, k := Preds(b, front, c), Prev(|b|, x);
      if b[k] == c {
        forall i | 0 <= i < |q| ensures q[i] != k && Leq(rank, up, q[i], k) {
          PredsAre(b, front, c, q[i]);
          assert q[i] in q;
          var m :| 0 <= m < |front| && Prev(|b|, front[m]) == q[i] && b[q[i]] == c;
          assert s[m] == front[m] && s[m] != s[|s| - 1] && Leq(rank, up, s[m], s[|s| - 1]);
          LeqPrev(b, rank, up, s[m], x);
        }
        Extended(b, rank, up, q, k);
      }
    }
  }

  lemma Extended(b: seq<Byte>, rank: seq<int>, up: bool, q: seq<int>, k: int)
    requires Ordered(b, rank, up, q) && 0 <= k < |b| && forall i :: 0 <= i < |q| ==> q[i] != k && Leq(rank, up, q[i], k)
    ensures Ordered(b, rank, up, q + [k])
  {
    var s := q + [k];
    forall i, j | 0 <= i < j < |s| ensures s[i] != s[j] && Leq(rank, up, s[i], s[j]) {
      if j < |q| {
        assert q[i] != q[j] && Leq(rank, up, q[i], q[j]);
      }
    }
  }

  // ----- runs of a byte ----------------------------------------------------

  /** A run of m bytes ss from x on, then a smaller or a greater one. */
  ghost predicate RunThen(b: seq<Byte>, ss: int, up: bool, x: nat, m: nat)
    requires b != []
  {
    && m > 0 && (forall i :: x <= i < x + m ==> At(b, i) == ss)
    && if up then At(b, x + m) < ss else At(b, x + m) > ss
  }

  /** The run of ss at x ends lower (or higher). */
  ghost predicate Side(b: seq<Byte>, ss: int, up: bool, x: nat)
    requires b != []
  {
    exists m: nat :: RunThen(b, ss, up, x, m)
  }

  lemma PrevWrap(n: nat, x: nat)
    requires x < n
    ensures Wrap(n, Prev(n, x) + 1) == x && 0 <= Prev(n, x) < n
  {
  }

  lemma AtShift(b: seq<Byte>, x: nat, i: nat)
    requires x < |b|
    ensures At(b, Prev(|b|, x) + 1 + i) == At(b, x + i)
  {
    var n := |b|;
    PrevWrap(n, x);
    WrapAdd(n, Prev(n, x) + 1, i);
    WrapAdd(n, x, i);
  }

  lemma PrevSide(b: seq<Byte>, ss: int, up: bool, x: nat)
    requires x < |b| && Side(b, ss, up, x) && b[Prev(|b|, x)] == ss
    ensures Side(b, ss, up, Prev(|b|, x))
  {
    var m: nat :| RunThen(b, ss, up, x, m);
    var k := Prev(|b|, x);
    forall i | k <= i < k + m + 1 ensures At(b, i) == ss {
      if i > k {
        AtShift(b, x, i - k - 1);
        assert At(b, x + (i - k - 1)) == ss;
      }
    }
    AtShift(b, x, m);
    assert RunThen(b, ss, up, k, m + 1);
  }

  /** Two runs that end on different sides are in order. */
  lemma {:induction false} SidesOrdered(b: seq<Byte>, ss: int, x: nat, y: nat, m: nat, m': nat)
    requires b != [] && RunThen(b, ss, true, x, m) && RunThen(b, ss, false, y, m')
    ensures Less(b, x, y, if m < m' then m + 1 else m' + 1)
    decreases m
  {
    assert At(b, x) == ss && At(b, y) == ss;
    if m > 1 && m' > 1 {
      assert RunThen(b, ss, true, x + 1, m - 1) && RunThen(b, ss, false, y + 1, m' - 1);
      SidesOrdered(b, ss, x + 1, y + 1, m - 1, m' - 1);
    } else {
      assert At(b, x + 1) < At(b, y + 1);
      assert Less(b, x + 1, y + 1, 1);
      assert Less(b, x, y, 2);
    }
  }

  lemma LowBeforeHigh(b: seq<Byte>, rank: seq<int>, ss: int, x: nat, y: nat)
    requires Ranked(b, rank) && x < |b| && y < |b| && Side(b, ss, true, x) && Side(b, ss, false, y)
    ensures rank[x] < rank[y]
  {
    var m: nat :| RunThen(b, ss, true, x, m);
    var m': nat :| RunThen(b, ss, false, y, m');
    SidesOrdered(b, ss, x, y, m, m');
    var h := if m < m' then m + 1 else m' + 1;
    LessLonger(b, x, y, h, h + |b|);
    WholeOrder(b, x, y, h + |b|);
  }

  // ----- the scan ----------------------------------------------------------

  /** Rotations that begin with ss and whose run ends on one side. */
  ghost predicate OnSide(b: seq<Byte>, rank: seq<int>, up: bool, ss: int, s: seq<int>) {
    Ordered(b, rank, up, s) && forall i :: 0 <= i < |s| ==> b[s[i]] == ss && Side(b, ss, up, s[i])
  }

  /** The part of the big bucket outside the bucket of the repeated byte. */
  ghost predicate Outer(b: seq<Byte>, up: bool, ss: int, first: seq<int>) {
    b != [] && forall i :: 0 <= i < |first| ==>
      0 <= first[i] < |b| && if up then Key(b, first[i]) < 257 * ss else Key(b, first[i]) > 257 * ss
  }

  /** What has been seen is a beginning of what the scan will see. */
  ghost predicate Scanning(b: seq<Byte>, rank: seq<int>, up: bool, ss: int, first: seq<int>, seen: seq<int>) {
    && Ranked(b, rank) && OnSide(b, rank, up, ss, first) && Outer(b, up, ss, first)
    && OnSide(b, rank, up, ss, seen) && seen <= first + Preds(b, seen, ss)
  }

  lemma PredKey(b: seq<Byte>, x: nat)
    requires x < |b|
    ensures Key(b, Prev(|b|, x)) == 256 * (b[Prev(|b|, x)] as int) + (b[x] as int)
  {
    AtShift(b, x, 0);
  }

  lemma PredsOnSide(b: seq<Byte>, rank: seq<int>, up: bool, ss: int, s: seq<int>)
    requires Ranked(b, rank) && OnSide(b, rank, up, ss, s)
    ensures OnSide(b, rank, up, ss, Preds(b, s, ss))
      && forall i :: 0 <= i < |Preds(b, s, ss)| ==> Key(b, Preds(b, s, ss)[i]) == 257 * ss
  {
    PredsOrdered(b, rank, up, s, ss);
    var q := Preds(b, s, ss);
    hide Preds, Side, Ranked;
    forall i | 0 <= i < |q| ensures b[q[i]] == ss && Side(b, ss, up, q[i]) && Key(b, q[i]) == 257 * ss {
      PredsAre(b, s, ss, q[i]);
      assert q[i] in q;
      var m :| 0 <= m < |s| && Prev(|b|, s[m]) == q[i] && b[q[i]] == ss;
      PrevSide(b, ss, up, s[m]);
      PredKey(b, s[m]);
    }
  }

  /** Outside first, then the repeated byte: in order altogether. */
  lemma AllOnSide(b: seq<Byte>, rank: seq<int>, up: bool, ss: int, first: seq<int>, q: seq<int>)
    requires Ranked(b, rank) && OnSide(b, rank, up, ss, first) && Outer(b, up, ss, first) && OnSide(b, rank, up, ss, q)
    requires forall i :: 0 <= i < |q| ==> Key(b, q[i]) == 257 * ss
    ensures OnSide(b, rank, up, ss, first + q)
  {
    hide Side, Ranked;
    var all := first + q;
    forall i, j | 0 <= i < j < |all| ensures all[i] != all[j] && Leq(rank, up, all[i], all[j]) {
      if j < |first| {
        assert first[i] != first[j] && Leq(rank, up, first[i], first[j]);
      } else if i < |first| {
        KeyOrder(b, rank, all[i], all[j]);
        KeyOrder(b, rank, all[j], all[i]);
      } else {
        assert q[i - |first|] != q[j - |first|] && Leq(rank, up, q[i - |first|], q[j - |first|]);
      }
    }
  }

  lemma OnSidePrefix(b: seq<Byte>, rank: seq<int>, up: bool, ss: int, s: seq<int>, k: nat)
    requires OnSide(b, rank, up, ss, s) && k <= |s|
    ensures OnSide(b, rank, up, ss, s[..k])
  {
  }

  /** One more rotation seen. */
  lemma ScanOn(b: seq<Byte>, rank: seq<int>, up: bool, ss: int, first: seq<int>, seen: seq<int>)
    requires Scanning(b, rank, up, ss, first, seen) && |seen| < |first + Preds(b, seen, ss)|
    ensures Scanning(b, rank, up, ss, first, seen + [(first + Preds(b, seen, ss))[|seen|]])
  {
    hide Ordered, Side, Ranked, Outer;
    InRangeOf(b, rank, up, seen);
    var q := Preds(b, seen, ss);
    var all := first + q;
    var x := all[|seen|];
    PredsOnSide(b, rank, up, ss, seen);
    AllOnSide(b, rank, up, ss, first, q);
    assert all[..|seen| + 1] == seen + [x];
    OnSidePrefix(b, rank, up, ss, all, |seen| + 1);
    InRangeOf(b, rank, up, all);
    PredsMore(b, seen, x, ss);
    var more := if b[Prev(|b|, x)] == ss then [Prev(|b|, x)] else [];
    assert first + (q + more) == all + more;
  }

  lemma InRangeOf(b: seq<Byte>, rank: seq<int>, up: bool, s: seq<int>)
    requires Ordered(b, rank, up, s)
    ensures b != [] && |rank| == |b| && forall i :: 0 <= i < |s| ==> 0 <= s[i] < |b|
  {
  }

  lemma NextRun(b: seq<Byte>, ss: int, up: bool, y: nat, m: nat)
    requires y < |b| && RunThen(b, ss, up, y, m) && m > 1
    ensures var x := Wrap(|b|, y + 1); RunThen(b, ss, up, x, m - 1) && Prev(|b|, x) == y && b[x] == ss
  {
    var x := Wrap(|b|, y + 1);
    assert At(b, y + 1) == ss;
    assert x == if y + 1 < |b| then y + 1 else 0;
    assert Prev(|b|, x) == y;
    forall i | x <= i < x + m - 1 ensures At(b, i) == ss {
      AtShift(b, x, i - x);
      assert At(b, y + 1 + (i - x)) == ss;
    }
    AtShift(b, x, m - 1);
  }

  /** When the scan has seen all it produced, it has seen every rotation whose
      run ends on its side. */
  lemma {:induction false} ScanComplete(b: seq<Byte>, rank: seq<int>, up: bool, ss: int, first: seq<int>,
      seen: seq<int>, y: nat, m: nat)
    requires Scanning(b, rank, up, ss, first, seen) && seen == first + Preds(b, seen, ss)
    requires forall x :: 0 <= x < |b| && b[x] == ss && (if up then Key(b, x) < 257 * ss else Key(b, x) > 257 * ss) ==>
      x in first
    requires y < |b| && RunThen(b, ss, up, y, m)
    ensures y in seen
    decreases m
  {
    hide Preds, Scanning, Key, RunThen;
    SeenInRange(b, rank, up, ss, first, seen);
    RunStarts(b, ss, up, y, m);
    if m == 1 {
      assert y in first;
    } else {
      var x := Wrap(|b|, y + 1);
      NextRun(b, ss, up, y, m);
      ScanComplete(b, rank, up, ss, first, seen, x, m - 1);
      PredsAre(b, seen, ss, y);
    }
  }

  lemma SeenInRange(b: seq<Byte>, rank: seq<int>, up: bool, ss: int, first: seq<int>, seen: seq<int>)
    requires Scanning(b, rank, up, ss, first, seen)
    ensures b != [] && forall i :: 0 <= i < |seen| ==> 0 <= seen[i] < |b|
  {
  }

  /** A run of a single byte is told by its key. */
  lemma RunStarts(b: seq<Byte>, ss: int, up: bool, y: nat, m: nat)
    requires y < |b| && RunThen(b, ss, up, y, m)
    ensures m > 0 && b[y] == ss
    ensures m == 1 ==> if up then Key(b, y) < 257 * ss else Key(b, y) > 257 * ss
  {
    assert At(b, y) == ss;
  }

  /** In a block of more than one byte value every run ends somewhere. */
  lemma {:induction false} RunEnds(b: seq<Byte>, ss: int, x: nat, m: nat, at: nat)
    requires b != [] && m > 0 && (forall i :: x <= i < x + m ==> At(b, i) == ss) && x + m <= at && At(b, at) != ss
    ensures Side(b, ss, true, x) || Side(b, ss, false, x)
    decreases at - m
  {
    if At(b, x + m) == ss {
      RunEnds(b, ss, x, m + 1, at);
    } else if At(b, x + m) < ss {
      assert RunThen(b, ss, true, x, m);
    } else {
      assert RunThen(b, ss, false, x, m);
    }
  }

  lemma EitherSide(b: seq<Byte>, ss: int, x: nat, z: nat)
    requires x < |b| && z < |b| && b[x] == ss && b[z] != ss
    ensures Side(b, ss, true, x) || Side(b, ss, false, x)
  {
    assert At(b, x) == ss;
    assert Wrap(|b|, z + |b|) == z;
    RunEnds(b, ss, x, 1, z + |b|);
  }
}
