/** What the two scans leave behind: every small bucket [c, ss] that was not
    done is complete and in order, and everything else is as it was. */
module MainCopied {
  import opened Rotations
  import opened Radix
  import opened Bwt
  import opened FallbackQSort
  import opened MainSimpleSort
  import opened MainBuckets
  import opened MainScan
  import opened MainCopy

  /** A predecessor comes from a rotation that was seen. */
  lemma PredFrom(b: seq<Byte>, rank: seq<int>, up: bool, ss: int, s: seq<int>, c: int, t: nat) returns (x: nat)
    requires Ranked(b, rank) && OnSide(b, rank, up, ss, s) && t < |Preds(b, s, c)|
    ensures x in s && x < |b| && b[x] == ss && Side(b, ss, up, x)
    ensures var k := Preds(b, s, c)[t]; Prev(|b|, x) == k && 0 <= k < |b| && b[k] == c && Key(b, k) == Of(c, ss)
  {
    hide Side, Ranked;
    var k := Preds(b, s, c)[t];
    assert k in Preds(b, s, c);
    PredsAre(b, s, c, k);
    var i :| 0 <= i < |s| && Prev(|b|, s[i]) == k && b[k] == c;
    x := s[i];
    PredKey(b, x);
  }

  lemma CrossDistinct(b: seq<Byte>, rank: seq<int>, ss: int, L: seq<int>, R: seq<int>, c: int, k: nat, m: nat)
    requires Ranked(b, rank) && OnSide(b, rank, true, ss, L) && OnSide(b, rank, false, ss, R) && k < |Preds(b, L, c)|
      && m < |Preds(b, R, c)|
    ensures Preds(b, L, c)[k] != Preds(b, R, c)[m]
  {
    hide Preds, Side, Ranked, OnSide;
    var x := PredFrom(b, rank, true, ss, L, c, k);
    var y := PredFrom(b, rank, false, ss, R, c, m);
    LowBeforeHigh(b, rank, ss, x, y);
  }

  ghost predicate DistinctWithKey(b: seq<Byte>, q: seq<int>, sb: int) {
    && b != [] && (forall k :: 0 <= k < |q| ==> 0 <= q[k] < |b| && Key(b, q[k]) == sb)
    && forall k, m :: 0 <= k < m < |q| ==> q[k] != q[m]
  }

  lemma OneSideDistinct(b: seq<Byte>, rank: seq<int>, up: bool, ss: int, s: seq<int>, c: int)
    requires Ranked(b, rank) && OnSide(b, rank, up, ss, s)
    ensures DistinctWithKey(b, Preds(b, s, c), Of(c, ss))
  {
    hide Preds, Side, Ranked;
    PredsOrdered(b, rank, up, s, c);
    var q := Preds(b, s, c);
    forall k | 0 <= k < |q| ensures 0 <= q[k] < |b| && Key(b, q[k]) == Of(c, ss) {
      var x := PredFrom(b, rank, up, ss, s, c, k);
    }
  }

  lemma JoinDistinct(b: seq<Byte>, l: seq<int>, r: seq<int>, sb: int)
    requires DistinctWithKey(b, l, sb) && DistinctWithKey(b, r, sb)
      && forall k, m :: 0 <= k < |l| && 0 <= m < |r| ==> l[k] != r[m]
    ensures DistinctWithKey(b, l + r, sb)
  {
    hide Key;
    var q := l + r;
    forall k, m | 0 <= k < m < |q| ensures q[k] != q[m] {
      if k >= |l| {
        assert r[k - |l|] != r[m - |l|];
      } else if m < |l| {
        assert l[k] != l[m];
      } else {
        assert l[k] != r[m - |l|];
      }
    }
  }

  /** The two scans never find the same predecessor. */
  lemma PredsDistinct(b: seq<Byte>, rank: seq<int>, ss: int, L: seq<int>, R: seq<int>, c: int)
    requires Ranked(b, rank) && OnSide(b, rank, true, ss, L) && OnSide(b, rank, false, ss, R)
    ensures DistinctWithKey(b, Preds(b, L, c) + Preds(b, R, c), Of(c, ss))
  {
    hide Preds, Ranked, OnSide, DistinctWithKey;
    SideListed(b, rank, true, ss, L);
    SideListed(b, rank, false, ss, R);
    OneSideDistinct(b, rank, true, ss, L, c);
    OneSideDistinct(b, rank, false, ss, R, c);
    var l, r := Preds(b, L, c), Preds(b, R, c);
    forall k, m | 0 <= k < |l| && 0 <= m < |r| ensures l[k] != r[m] {
      CrossDistinct(b, rank, ss, L, R, c, k, m);
    }
    JoinDistinct(b, l, r, Of(c, ss));
  }

  lemma SideListed(b: seq<Byte>, rank: seq<int>, up: bool, ss: int, s: seq<int>)
    requires OnSide(b, rank, up, ss, s)
    ensures Listed(b, s) && b != [] && |rank| == |b|
  {
  }

  /** There is room for every predecessor found. */
  lemma Room(b: seq<Byte>, rank: seq<int>, ss: int, L: seq<int>, R: seq<int>, c: int)
    requires Ranked(b, rank) && OnSide(b, rank, true, ss, L) && OnSide(b, rank, false, ss, R)
    ensures |Preds(b, L, c)| + |Preds(b, R, c)| <= Begin(b, Of(c, ss) + 1) - Begin(b, Of(c, ss))
  {
    hide Preds, Ranked;
    PredsDistinct(b, rank, ss, L, R, c);
    NoMoreThanBucket(b, Preds(b, L, c) + Preds(b, R, c), Of(c, ss));
  }

  /** Both scans together see the whole big bucket. */
  ghost predicate SeenAll(b: seq<Byte>, ss: int, L: seq<int>, R: seq<int>) {
    forall x :: 0 <= x < |b| && b[x] == ss ==> x in L || x in R
  }

  lemma NextOf(b: seq<Byte>, k: nat)
    requires k < |b|
    ensures var x := Wrap(|b|, k + 1); Prev(|b|, x) == k && Key(b, k) == 256 * (b[k] as int) + (b[x] as int)
  {
    var x := Wrap(|b|, k + 1);
    assert x == if k + 1 < |b| then k + 1 else 0;
    PredKey(b, x);
  }

  /** So every bucket [c, ss] is filled exactly. */
  lemma FilledExactly(b: seq<Byte>, rank: seq<int>, ss: int, L: seq<int>, R: seq<int>, c: int)
    requires Ranked(b, rank) && OnSide(b, rank, true, ss, L) && OnSide(b, rank, false, ss, R) && SeenAll(b, ss, L, R)
      && 0 <= c < 256 && 0 <= ss < 256
    ensures |Preds(b, L, c)| + |Preds(b, R, c)| == Begin(b, Of(c, ss) + 1) - Begin(b, Of(c, ss))
  {
    hide Preds, OnSide, Ranked;
    SideListed(b, rank, true, ss, L);
    SideListed(b, rank, false, ss, R);
    PredsDistinct(b, rank, ss, L, R, c);
    var q := Preds(b, L, c) + Preds(b, R, c);
    forall k | 0 <= k < |b| && Key(b, k) == Of(c, ss) ensures k in q {
      NextOf(b, k);
      var x := Wrap(|b|, k + 1);
      SplitKey(b[k], b[x], c, ss);
      PredsAre(b, L, c, k);
      PredsAre(b, R, c, k);
    }
    AllOfBucket(b, q, Of(c, ss));
  }

  lemma SplitKey(x: int, y: int, c: int, ss: int)
    requires 0 <= y < 256 && 0 <= ss < 256 && 256 * x + y == Of(c, ss)
    ensures x == c && y == ss
  {
  }

  // ----- a bucket filled from both ends ------------------------------------

  lemma EntryAt(b: seq<Byte>, p: seq<int>, cs: int, ce: int, left: seq<int>, right: seq<int>, sb: int, i: nat)
    requires FilledWith(b, p, cs, ce, left, right, sb) && |left| + |right| == Begin(b, sb + 1) - Begin(b, sb)
      && Begin(b, sb) <= i < Begin(b, sb + 1)
    ensures i < |p| == |b|
    ensures i < cs ==> 0 <= i - Begin(b, sb) < |left| && p[i] == left[i - Begin(b, sb)]
    ensures i >= cs ==> 0 <= Begin(b, sb + 1) - 1 - i < |right| && p[i] == right[Begin(b, sb + 1) - 1 - i]
  {
    var s, e := Begin(b, sb), Begin(b, sb + 1);
    if i < cs {
      assert p[s + (i - s)] == left[i - s];
    } else {
      assert p[e - 1 - (e - 1 - i)] == right[e - 1 - i];
    }
  }

  /** The result of the scans: both sides in order and complete. */
  ghost predicate Swept(b: seq<Byte>, rank: seq<int>, ss: int, L: seq<int>, R: seq<int>) {
    && Ranked(b, rank) && OnSide(b, rank, true, ss, L) && OnSide(b, rank, false, ss, R) && SeenAll(b, ss, L, R)
    && 0 <= ss < 256 && Listed(b, L) && Listed(b, R)
  }

  /** What is at place i of a bucket filled exactly, and where it comes from. */
  lemma EntryFrom(b: seq<Byte>, rank: seq<int>, p: seq<int>, m: Marks, L: seq<int>, R: seq<int>, ss: int, c: int,
      i: nat) returns (x: nat, up: bool)
    requires m.Sized() && Swept(b, rank, ss, L, R) && 0 <= c < 256
    requires CopyOf(b, p, m, L, R, ss, c) && Begin(b, Of(c, ss)) <= i < Begin(b, Of(c, ss) + 1)
    ensures x < |b| && Side(b, ss, up, x) && i < |p| && p[i] == Prev(|b|, x) && 0 <= p[i] < |b| && b[p[i]] == c
      && Key(b, p[i]) == Of(c, ss)
    ensures up <==> i < m.start[c]
  {
    hide Preds, Side, Ranked, OnSide, FilledWith, SeenAll, Key, Begin;
    FilledExactly(b, rank, ss, L, R, c);
    EntryAt(b, p, m.start[c], m.end[c], Preds(b, L, c), Preds(b, R, c), Of(c, ss), i);
    up := i < m.start[c];
    if up {
      x := PredFrom(b, rank, true, ss, L, c, i - Begin(b, Of(c, ss)));
    } else {
      x := PredFrom(b, rank, false, ss, R, c, Begin(b, Of(c, ss) + 1) - 1 - i);
    }
  }

  lemma OrderedPair(b: seq<Byte>, rank: seq<int>, up: bool, s: seq<int>, i: nat, j: nat)
    requires Ordered(b, rank, up, s) && i < j < |s|
    ensures 0 <= s[i] < |b| == |rank| && 0 <= s[j] < |b| && s[i] != s[j] && Leq(rank, up, s[i], s[j])
  {
  }

  /** Two entries filled in from the same end. */
  lemma SameEnd(b: seq<Byte>, rank: seq<int>, p: seq<int>, m: Marks, L: seq<int>, R: seq<int>, ss: int, c: int, i: nat,
      j: nat)
    requires m.Sized() && Swept(b, rank, ss, L, R) && 0 <= c < 256 && (j < m.start[c] || i >= m.start[c])
    requires CopyOf(b, p, m, L, R, ss, c) && Begin(b, Of(c, ss)) <= i < j < Begin(b, Of(c, ss) + 1)
    ensures j < |p| && 0 <= p[i] < |rank| && 0 <= p[j] < |rank| && p[i] != p[j] && rank[p[i]] <= rank[p[j]]
  {
    hide Preds, Side, Ranked, OnSide, FilledWith, SeenAll, Key, Begin, Ordered;
    FilledExactly(b, rank, ss, L, R, c);
    EntryAt(b, p, m.start[c], m.end[c], Preds(b, L, c), Preds(b, R, c), Of(c, ss), i);
    EntryAt(b, p, m.start[c], m.end[c], Preds(b, L, c), Preds(b, R, c), Of(c, ss), j);
    if j < m.start[c] {
      SideOrdered(b, rank, true, ss, L);
      PredsOrdered(b, rank, true, L, c);
      OrderedPair(b, rank, true, Preds(b, L, c), i - Begin(b, Of(c, ss)), j - Begin(b, Of(c, ss)));
    } else {
      SideOrdered(b, rank, false, ss, R);
      PredsOrdered(b, rank, false, R, c);
      OrderedPair(b, rank, false, Preds(b, R, c), Begin(b, Of(c, ss) + 1) - 1 - j, Begin(b, Of(c, ss) + 1) - 1 - i);
    }
  }

  /** One entry from either end. */
  lemma AcrossEnds(b: seq<Byte>, rank: seq<int>, p: seq<int>, m: Marks, L: seq<int>, R: seq<int>, ss: int, c: int,
      i: nat, j: nat)
    requires m.Sized() && Swept(b, rank, ss, L, R) && 0 <= c < 256 && i < m.start[c] <= j
    requires CopyOf(b, p, m, L, R, ss, c) && Begin(b, Of(c, ss)) <= i < j < Begin(b, Of(c, ss) + 1)
    ensures j < |p| && 0 <= p[i] < |rank| && 0 <= p[j] < |rank| && p[i] != p[j] && rank[p[i]] <= rank[p[j]]
  {
    hide Preds, Side, Ranked, OnSide, SeenAll, Key, Begin, CopyOf;
    var x, up := EntryFrom(b, rank, p, m, L, R, ss, c, i);
    var y, up' := EntryFrom(b, rank, p, m, L, R, ss, c, j);
    RankedLength(b, rank);
    LowBeforeHigh(b, rank, ss, x, y);
    PrevOrder(b, rank, x, y);
    CrossEntries(b, rank, ss, x, y);
  }

  /** Two entries of it are different and in order. */
  lemma EntriesOrdered(b: seq<Byte>, rank: seq<int>, p: seq<int>, m: Marks, L: seq<int>, R: seq<int>, ss: int, c: int,
      i: nat, j: nat)
    requires m.Sized() && Swept(b, rank, ss, L, R) && 0 <= c < 256
    requires CopyOf(b, p, m, L, R, ss, c) && Begin(b, Of(c, ss)) <= i < j < Begin(b, Of(c, ss) + 1)
    ensures j < |p| && 0 <= p[i] < |rank| && 0 <= p[j] < |rank| && p[i] != p[j] && rank[p[i]] <= rank[p[j]]
  {
    hide Swept, CopyOf, Begin;
    if i < m.start[c] <= j {
      AcrossEnds(b, rank, p, m, L, R, ss, c, i, j);
    } else {
      SameEnd(b, rank, p, m, L, R, ss, c, i, j);
    }
  }

  lemma CrossEntries(b: seq<Byte>, rank: seq<int>, ss: int, x: nat, y: nat)
    requires x < |b| && y < |b| && |rank| == |b| && rank[x] < rank[y]
    ensures Prev(|b|, x) != Prev(|b|, y)
  {
  }

  lemma SideOrdered(b: seq<Byte>, rank: seq<int>, up: bool, ss: int, s: seq<int>)
    requires OnSide(b, rank, up, ss, s)
    ensures Ordered(b, rank, up, s)
  {
  }

  lemma RankedLength(b: seq<Byte>, rank: seq<int>)
    requires Ranked(b, rank)
    ensures b != [] && |rank| == |b|
  {
  }

  // ----- the order afterwards ----------------------------------------------

  /** Whether the scan for ss fills this bucket. */
  predicate Fills(m: Marks, ss: int, sb: int)
    requires m.Sized() && 0 <= sb < 65536
  {
    sb % 256 == ss && !m.done[sb / 256]
  }

  lemma OfParts(sb: int)
    ensures Of(sb / 256, sb % 256) == sb
  {
  }

  lemma PlaceOf(b: seq<Byte>, p0: seq<int>, i: nat)
    requires Placed(KeysOf(b), p0) && i < |b|
    ensures |p0| == |b| && 0 <= p0[i] < |b| && Begin(b, Key(b, p0[i])) <= i < Begin(b, Key(b, p0[i]) + 1)
  {
  }

  /** Every place still has a rotation of its bucket. */
  lemma SameKey(b: seq<Byte>, rank: seq<int>, p0: seq<int>, p: seq<int>, m: Marks, L: seq<int>, R: seq<int>, ss: int,
      i: nat)
    requires Copying(b, p0, p, m, L, R, ss) && Swept(b, rank, ss, L, R) && i < |b|
    ensures 0 <= p0[i] < |b| && 0 <= p[i] < |b| && Key(b, p[i]) == Key(b, p0[i])
    ensures !Fills(m, ss, Key(b, p0[i])) ==> p[i] == p0[i]
  {
    hide Copying, Placed, Swept, Begin, Key, Fills;
    CopyingIs(b, p0, p, m, L, R, ss);
    PlaceOf(b, p0, i);
    if Fills(m, ss, Key(b, p0[i])) {
      FilledKey(b, rank, p0, p, m, L, R, ss, Key(b, p0[i]), i);
    } else {
      KeptPlace(b, p0, p, m, L, R, ss, i);
    }
  }

  lemma FilledKey(b: seq<Byte>, rank: seq<int>, p0: seq<int>, p: seq<int>, m: Marks, L: seq<int>, R: seq<int>, ss: int,
      sb: int, i: nat)
    requires m.Sized() && Copying(b, p0, p, m, L, R, ss) && Swept(b, rank, ss, L, R) && 0 <= sb < 65536
      && Fills(m, ss, sb)
    requires Begin(b, sb) <= i < Begin(b, sb + 1)
    ensures b != [] && i < |p| && 0 <= p[i] < |b| && Key(b, p[i]) == sb
  {
    hide Copying, Swept, Begin, CopyOf, Key;
    OfParts(sb);
    CopyingIs(b, p0, p, m, L, R, ss);
    CopyAt(b, p0, p, m, L, R, ss, sb / 256);
    var x, up := EntryFrom(b, rank, p, m, L, R, ss, sb / 256, i);
  }

  lemma KeptPlace(b: seq<Byte>, p0: seq<int>, p: seq<int>, m: Marks, L: seq<int>, R: seq<int>, ss: int, i: nat)
    requires Copying(b, p0, p, m, L, R, ss) && i < |b|
    ensures m.Sized() && i < |p0| && i < |p| && 0 <= p0[i] && (!Fills(m, ss, Key(b, p0[i])) ==> p[i] == p0[i])
  {
    hide Placed, CopyOf;
    PlaceOf(b, p0, i);
    assert Untouched(b, p0, p, m, ss, i);
  }

  lemma CopyingIs(b: seq<Byte>, p0: seq<int>, p: seq<int>, m: Marks, L: seq<int>, R: seq<int>, ss: int)
    requires Copying(b, p0, p, m, L, R, ss)
    ensures m.Sized() && b != [] && |p| == |b| && Placed(KeysOf(b), p0) && 0 <= ss < 256
  {
  }

  lemma CopyAt(b: seq<Byte>, p0: seq<int>, p: seq<int>, m: Marks, L: seq<int>, R: seq<int>, ss: int, c: int)
    requires Copying(b, p0, p, m, L, R, ss) && 0 <= c < 256 && !m.done[c]
    ensures Listed(b, L) && Listed(b, R) && CopyOf(b, p, m, L, R, ss, c)
  {
  }

  lemma StillDistinct(b: seq<Byte>, rank: seq<int>, p0: seq<int>, p: seq<int>, m: Marks, L: seq<int>, R: seq<int>,
      ss: int, i: nat, j: nat)
    requires Copying(b, p0, p, m, L, R, ss) && Swept(b, rank, ss, L, R) && i < j < |b|
    ensures p[i] != p[j]
  {
    hide Copying, Placed, Swept, Begin;
    CopyingIs(b, p0, p, m, L, R, ss);
    SameKey(b, rank, p0, p, m, L, R, ss, i);
    SameKey(b, rank, p0, p, m, L, R, ss, j);
    PlaceOf(b, p0, i);
    PlaceOf(b, p0, j);
    PlacedDistinct(b, p0, i, j);
    hide Fills, Key;
    if Key(b, p0[i]) == Key(b, p0[j]) && Fills(m, ss, Key(b, p0[i])) {
      FilledDistinct(b, rank, p0, p, m, L, R, ss, Key(b, p0[i]), i, j);
    }
  }

  lemma FilledDistinct(b: seq<Byte>, rank: seq<int>, p0: seq<int>, p: seq<int>, m: Marks, L: seq<int>, R: seq<int>,
      ss: int, sb: int, i: nat, j: nat)
    requires m.Sized() && Copying(b, p0, p, m, L, R, ss) && Swept(b, rank, ss, L, R) && 0 <= sb < 65536
      && Fills(m, ss, sb)
    requires Begin(b, sb) <= i < j < Begin(b, sb + 1)
    ensures j < |p| && p[i] != p[j]
  {
    hide Copying, Swept, Begin, CopyOf;
    OfParts(sb);
    CopyAt(b, p0, p, m, L, R, ss, sb / 256);
    EntriesOrdered(b, rank, p, m, L, R, ss, sb / 256, i, j);
  }

  lemma PlacedDistinct(b: seq<Byte>, p0: seq<int>, i: nat, j: nat)
    requires Placed(KeysOf(b), p0) && i < j < |b|
    ensures |p0| == |b| && p0[i] != p0[j]
  {
  }

  lemma StillPlacedBy(b: seq<Byte>, p0: seq<int>, p: seq<int>)
    requires b != [] && Placed(KeysOf(b), p0) && |p| == |b|
      && (forall i :: 0 <= i < |b| ==> 0 <= p0[i] < |b| && 0 <= p[i] < |b| && Key(b, p[i]) == Key(b, p0[i]))
    requires forall i, j :: 0 <= i < j < |b| ==> p[i] != p[j]
    ensures Placed(KeysOf(b), p)
  {
    StillPlaced(KeysOf(b), p0, p);
  }

  /** The order is placed again, and the buckets filled are in order. */
  lemma CopiedPlaced(b: seq<Byte>, rank: seq<int>, p0: seq<int>, p: seq<int>, m: Marks, L: seq<int>, R: seq<int>,
      ss: int)
    requires Copying(b, p0, p, m, L, R, ss) && Swept(b, rank, ss, L, R)
    ensures Placed(KeysOf(b), p)
    ensures forall i :: 0 <= i < |b| ==> 0 <= p0[i] < |b| && (!Fills(m, ss, Key(b, p0[i])) ==> p[i] == p0[i])
  {
    forall i | 0 <= i < |b|
      ensures 0 <= p0[i] < |b| && 0 <= p[i] < |b| && Key(b, p[i]) == Key(b, p0[i])
      ensures !Fills(m, ss, Key(b, p0[i])) ==> p[i] == p0[i]
    {
      SameKey(b, rank, p0, p, m, L, R, ss, i);
    }
    forall i, j | 0 <= i < j < |b| ensures p[i] != p[j] {
      StillDistinct(b, rank, p0, p, m, L, R, ss, i, j);
    }
    StillPlacedBy(b, p0, p);
  }

  lemma CopiedSorted(b: seq<Byte>, rank: seq<int>, p0: seq<int>, p: seq<int>, m: Marks, L: seq<int>, R: seq<int>,
      ss: int, c: int)
    requires Copying(b, p0, p, m, L, R, ss) && Swept(b, rank, ss, L, R) && 0 <= c < 256 && !m.done[c]
    ensures BucketSorted(b, rank, p, Of(c, ss))
  {
    CopiedPlaced(b, rank, p0, p, m, L, R, ss);
    CopiedRange(b, rank, p);
    hide Placed, Swept, Untouched;
    assert CopyOf(b, p, m, L, R, ss, c);
    var lo, hi := Begin(b, Of(c, ss)), Begin(b, Of(c, ss) + 1) - 1;
    forall i, j | lo <= i < j <= hi ensures Ord(rank, p, i, j) {
      EntriesOrdered(b, rank, p, m, L, R, ss, c, i, j);
    }
  }

  lemma CopiedRange(b: seq<Byte>, rank: seq<int>, p: seq<int>)
    requires Placed(KeysOf(b), p) && Ranked(b, rank)
    ensures |p| == |b| && InRange(p, |rank|)
  {
  }
}
