/** The scan of a sorted big bucket on the arrays: small buckets [c, ss] are
    filled from both ends with the predecessors found. */
module MainCopy {
  import opened Rotations
  import opened Radix
  import opened Bwt
  import opened MainBuckets
  import opened MainScan

  /** The bucket of rotations that begin with c, ss. */
  function Of(c: int, ss: int): int {
    256 * c + ss
  }

  /** A rotation list, usable by Preds. */
  ghost predicate Listed(b: seq<Byte>, s: seq<int>) {
    b != [] && forall i :: 0 <= i < |s| ==> 0 <= s[i] < |b|
  }

  /** Bucket [c, ss] holds the predecessors seen so far: at its beginning those
      of the upward scan, at its end those of the downward scan. */
  ghost predicate FilledWith(b: seq<Byte>, p: seq<int>, cs: int, ce: int, left: seq<int>, right: seq<int>, sb: int) {
    && |p| == |b| && cs == Begin(b, sb) + |left| && ce == Begin(b, sb + 1) - 1 - |right| && cs <= ce + 1
    && (forall t :: 0 <= t < |left| ==> p[Begin(b, sb) + t] == left[t])
    && (forall t :: 0 <= t < |right| ==> p[Begin(b, sb + 1) - 1 - t] == right[t])
  }

  /** The tables of where to copy to, one entry for every first byte. */
  datatype Marks = Marks(start: seq<int>, end: seq<int>, done: seq<bool>) {
    predicate Sized() {
      |start| == 256 && |end| == 256 && |done| == 256
    }
  }

  ghost predicate CopyOf(b: seq<Byte>, p: seq<int>, m: Marks, seenL: seq<int>, seenR: seq<int>, ss: int, c: int)
    requires m.Sized() && Listed(b, seenL) && Listed(b, seenR) && 0 <= c < 256
  {
    FilledWith(b, p, m.start[c], m.end[c], Preds(b, seenL, c), Preds(b, seenR, c), Of(c, ss))
  }

  /** Places the scan has not touched. */
  ghost predicate Untouched(b: seq<Byte>, p0: seq<int>, p: seq<int>, m: Marks, ss: int, i: nat)
    requires m.Sized() && b != [] && i < |p0| == |p| && 0 <= p0[i]
  {
    var sb := Key(b, p0[i]);
    (sb % 256 == ss && !m.done[sb / 256] && !(m.start[sb / 256] <= i <= m.end[sb / 256])) || p[i] == p0[i]
  }

  ghost predicate Copying(b: seq<Byte>, p0: seq<int>, p: seq<int>, m: Marks, seenL: seq<int>, seenR: seq<int>,
      ss: int) {
    && m.Sized() && Listed(b, seenL) && Listed(b, seenR) && 0 <= ss < 256 && |p| == |b| && Placed(KeysOf(b), p0)
    && (forall c :: 0 <= c < 256 && !m.done[c] ==> CopyOf(b, p, m, seenL, seenR, ss, c))
    && (forall i :: 0 <= i < |b| ==> Untouched(b, p0, p, m, ss, i))
  }

  lemma BucketsApart(b: seq<Byte>, sb: int, sb': int, i: int)
    requires sb != sb' && Begin(b, sb) <= i < Begin(b, sb + 1)
    ensures !(Begin(b, sb') <= i < Begin(b, sb' + 1))
  {
    if sb < sb' {
      BeginMonotone(b, sb + 1, sb');
    } else {
      BeginMonotone(b, sb' + 1, sb);
    }
  }

  /** Writing into one bucket does not affect another. */
  lemma FilledElsewhere(b: seq<Byte>, p: seq<int>, cs: int, ce: int, left: seq<int>, right: seq<int>, sb: int, at: nat,
      k: int, sb': int)
    requires FilledWith(b, p, cs, ce, left, right, sb) && sb != sb' && at < |b|
      && Begin(b, sb') <= at < Begin(b, sb' + 1)
    ensures FilledWith(b, p[at := k], cs, ce, left, right, sb)
  {
    BucketsApart(b, sb', sb, at);
  }

  lemma FillLeft(b: seq<Byte>, p: seq<int>, cs: int, ce: int, left: seq<int>, right: seq<int>, sb: int, k: int)
    requires FilledWith(b, p, cs, ce, left, right, sb) && cs <= ce
    ensures 0 <= cs < |p| && FilledWith(b, p[cs := k], cs + 1, ce, left + [k], right, sb)
  {
  }

  lemma FillRight(b: seq<Byte>, p: seq<int>, cs: int, ce: int, left: seq<int>, right: seq<int>, sb: int, k: int)
    requires FilledWith(b, p, cs, ce, left, right, sb) && cs <= ce
    ensures 0 <= ce < |p| && FilledWith(b, p[ce := k], cs, ce - 1, left, right + [k], sb)
  {
  }

  lemma Numbers(c: int, ss: int)
    requires 0 <= ss < 256
    ensures Of(c, ss) % 256 == ss && Of(c, ss) / 256 == c
  {
  }

  lemma OfDiffers(c: int, c': int, ss: int)
    requires c != c'
    ensures Of(c, ss) != Of(c', ss)
  {
  }

  /** A place at the edge of a filled bucket is in that bucket. */
  lemma EdgeInside(b: seq<Byte>, p: seq<int>, cs: int, ce: int, left: seq<int>, right: seq<int>, sb: int)
    requires FilledWith(b, p, cs, ce, left, right, sb) && cs <= ce
    ensures Begin(b, sb) <= cs < Begin(b, sb + 1) <= |b| && Begin(b, sb) <= ce < Begin(b, sb + 1)
  {
  }

  /** The key of what a placed order has at a place is the place's bucket. */
  lemma BucketOfPlace(b: seq<Byte>, p0: seq<int>, i: nat, sb: int)
    requires Placed(KeysOf(b), p0) && i < |b| && Begin(b, sb) <= i < Begin(b, sb + 1)
    ensures 0 <= p0[i] < |b| && Key(b, p0[i]) == sb
  {
    PlacedKey(b, p0, i, sb);
  }

  ghost function LeftMarks(m: Marks, c: int): (m': Marks)
    requires m.Sized() && 0 <= c < 256
    ensures m'.Sized() && m'.done == m.done && m'.end == m.end
  {
    m.(start := m.start[c := m.start[c] + 1])
  }

  ghost function RightMarks(m: Marks, c: int): (m': Marks)
    requires m.Sized() && 0 <= c < 256
    ensures m'.Sized() && m'.done == m.done && m'.start == m.start
  {
    m.(end := m.end[c := m.end[c] - 1])
  }

  /** Marks only close in, so untouched places stay accounted for. */
  lemma UntouchedMore(b: seq<Byte>, p0: seq<int>, p: seq<int>, m: Marks, p': seq<int>, m': Marks, ss: int, at: nat,
      c: int)
    requires m.Sized() && m'.Sized() && 0 <= ss < 256 && 0 <= c < 256 && |p| == |b| == |p'| && Placed(KeysOf(b), p0)
      && at < |b| && m'.done == m.done && !m.done[c]
    requires Begin(b, Of(c, ss)) <= at < Begin(b, Of(c, ss) + 1) && !(m'.start[c] <= at <= m'.end[c])
    requires forall d :: 0 <= d < 256 ==> m.start[d] <= m'.start[d] && m'.end[d] <= m.end[d]
    requires forall i :: 0 <= i < |b| && i != at ==> p'[i] == p[i]
    requires forall i :: 0 <= i < |b| ==> Untouched(b, p0, p, m, ss, i)
    ensures forall i :: 0 <= i < |b| ==> Untouched(b, p0, p', m', ss, i)
  {
    BucketOfPlace(b, p0, at, Of(c, ss));
    Numbers(c, ss);
    hide Key, Placed;
    forall i | 0 <= i < |b| ensures 0 <= p0[i] && Untouched(b, p0, p', m', ss, i) {
      PlacedRange(b, p0, i);
      assert Untouched(b, p0, p, m, ss, i);
    }
  }

  lemma PlacedRange(b: seq<Byte>, p0: seq<int>, i: nat)
    requires Placed(KeysOf(b), p0) && i < |b|
    ensures |p0| == |b| && 0 <= p0[i] < |b| && 0 <= Key(b, p0[i]) / 256 < 256
  {
  }

  lemma CopyMore(b: seq<Byte>, p: seq<int>, m: Marks, p': seq<int>, m': Marks, seenL: seq<int>, seenR: seq<int>,
      L: seq<int>, R: seq<int>, ss: int, c: int, c': int, at: nat, k: int)
    requires m.Sized() && m'.Sized() && Listed(b, seenL) && Listed(b, seenR) && Listed(b, L) && Listed(b, R)
      && 0 <= c' < 256 && c != c' && at < |p|
    requires CopyOf(b, p, m, seenL, seenR, ss, c') && p' == p[at := k] && m'.start[c'] == m.start[c']
      && m'.end[c'] == m.end[c']
    requires Preds(b, L, c') == Preds(b, seenL, c') && Preds(b, R, c') == Preds(b, seenR, c')
    requires Begin(b, Of(c, ss)) <= at < Begin(b, Of(c, ss) + 1)
    ensures CopyOf(b, p', m', L, R, ss, c')
  {
    OfDiffers(c, c', ss);
    hide Preds;
    FilledElsewhere(b, p, m.start[c'], m.end[c'], Preds(b, seenL, c'), Preds(b, seenR, c'), Of(c', ss), at, k,
      Of(c, ss));
  }

  lemma LeftEdge(b: seq<Byte>, p0: seq<int>, p: seq<int>, m: Marks, seenL: seq<int>, seenR: seq<int>, ss: int, c: int)
    requires Copying(b, p0, p, m, seenL, seenR, ss) && 0 <= c < 256 && !m.done[c] && m.start[c] <= m.end[c]
    ensures m.Sized() && 0 <= m.start[c] < |p| == |b|
    ensures Begin(b, Of(c, ss)) <= m.start[c] < Begin(b, Of(c, ss) + 1) <= |b|
  {
    assert CopyOf(b, p, m, seenL, seenR, ss, c);
    hide FilledWith, Placed, Untouched, Preds, Begin;
    var at := m.start[c];
    EdgeInside(b, p, at, m.end[c], Preds(b, seenL, c), Preds(b, seenR, c), Of(c, ss));
  }

  lemma LeftAt(b: seq<Byte>, p0: seq<int>, p: seq<int>, m: Marks, seenL: seq<int>, seenR: seq<int>, ss: int, x: nat,
      d: int)
    requires Copying(b, p0, p, m, seenL, seenR, ss) && x < |b| && !m.done[b[Prev(|b|, x)]]
    requires m.start[b[Prev(|b|, x)]] <= m.end[b[Prev(|b|, x)]] && 0 <= d < 256 && !m.done[d]
    ensures var k := Prev(|b|, x); var c := b[k];
      && 0 <= m.start[c] < |p| && Listed(b, seenL + [x])
      && CopyOf(b, p[m.start[c] := k], LeftMarks(m, c), seenL + [x], seenR, ss, d)
  {
    var k := Prev(|b|, x);
    var c := b[k];
    LeftEdge(b, p0, p, m, seenL, seenR, ss, c);
    assert CopyOf(b, p, m, seenL, seenR, ss, c) && CopyOf(b, p, m, seenL, seenR, ss, d);
    hide FilledWith, Placed, Untouched, Preds, Begin;
    var at := m.start[c];
    PredsMore(b, seenL, x, d);
    if d == c {
      FillLeft(b, p, at, m.end[c], Preds(b, seenL, c), Preds(b, seenR, c), Of(c, ss), k);
    } else {
      assert Preds(b, seenL, d) + [] == Preds(b, seenL, d);
      CopyMore(b, p, m, p[at := k], LeftMarks(m, c), seenL, seenR, seenL + [x], seenR, ss, c, d, at, k);
    }
  }

  /** One step of the upward scan. */
  lemma CopyLeft(b: seq<Byte>, p0: seq<int>, p: seq<int>, m: Marks, seenL: seq<int>, seenR: seq<int>, ss: int, x: nat)
    requires Copying(b, p0, p, m, seenL, seenR, ss) && x < |b| && !m.done[b[Prev(|b|, x)]]
    requires m.start[b[Prev(|b|, x)]] <= m.end[b[Prev(|b|, x)]]
    ensures var k := Prev(|b|, x); var c := b[k];
      0 <= m.start[c] < |p| && Copying(b, p0, p[m.start[c] := k], LeftMarks(m, c), seenL + [x], seenR, ss)
  {
    var k := Prev(|b|, x);
    var c := b[k];
    LeftEdge(b, p0, p, m, seenL, seenR, ss, c);
    hide FilledWith, CopyOf, Placed, Untouched, Preds, Begin;
    var at := m.start[c];
    var p', m' := p[at := k], LeftMarks(m, c);
    forall d | 0 <= d < 256 && !m'.done[d] ensures CopyOf(b, p', m', seenL + [x], seenR, ss, d) {
      LeftAt(b, p0, p, m, seenL, seenR, ss, x, d);
    }
    LeftAt(b, p0, p, m, seenL, seenR, ss, x, c);
    UntouchedMore(b, p0, p, m, p', m', ss, at, c);
  }

  lemma RightEdge(b: seq<Byte>, p0: seq<int>, p: seq<int>, m: Marks, seenL: seq<int>, seenR: seq<int>, ss: int, c: int)
    requires Copying(b, p0, p, m, seenL, seenR, ss) && 0 <= c < 256 && !m.done[c] && m.start[c] <= m.end[c]
    ensures m.Sized() && 0 <= m.end[c] < |p| == |b|
    ensures Begin(b, Of(c, ss)) <= m.end[c] < Begin(b, Of(c, ss) + 1) <= |b|
  {
    assert CopyOf(b, p, m, seenL, seenR, ss, c);
    hide FilledWith, Placed, Untouched, Preds, Begin;
    var at := m.end[c];
    EdgeInside(b, p, m.start[c], at, Preds(b, seenL, c), Preds(b, seenR, c), Of(c, ss));
  }

  lemma RightAt(b: seq<Byte>, p0: seq<int>, p: seq<int>, m: Marks, seenL: seq<int>, seenR: seq<int>, ss: int, x: nat,
      d: int)
    requires Copying(b, p0, p, m, seenL, seenR, ss) && x < |b| && !m.done[b[Prev(|b|, x)]]
    requires m.start[b[Prev(|b|, x)]] <= m.end[b[Prev(|b|, x)]] && 0 <= d < 256 && !m.done[d]
    ensures var k := Prev(|b|, x); var c := b[k];
      && 0 <= m.end[c] < |p| && Listed(b, seenR + [x])
      && CopyOf(b, p[m.end[c] := k], RightMarks(m, c), seenL, seenR + [x], ss, d)
  {
    var k := Prev(|b|, x);
    var c := b[k];
    RightEdge(b, p0, p, m, seenL, seenR, ss, c);
    assert CopyOf(b, p, m, seenL, seenR, ss, c) && CopyOf(b, p, m, seenL, seenR, ss, d);
    hide FilledWith, Placed, Untouched, Preds, Begin;
    var at := m.end[c];
    PredsMore(b, seenR, x, d);
    if d == c {
      FillRight(b, p, m.start[c], at, Preds(b, seenL, c), Preds(b, seenR, c), Of(c, ss), k);
    } else {
      assert Preds(b, seenR, d) + [] == Preds(b, seenR, d);
      CopyMore(b, p, m, p[at := k], RightMarks(m, c), seenL, seenR, seenL, seenR + [x], ss, c, d, at, k);
    }
  }

  /** One step of the downward scan. */
  lemma CopyRight(b: seq<Byte>, p0: seq<int>, p: seq<int>, m: Marks, seenL: seq<int>, seenR: seq<int>, ss: int, x: nat)
    requires Copying(b, p0, p, m, seenL, seenR, ss) && x < |b| && !m.done[b[Prev(|b|, x)]]
    requires m.start[b[Prev(|b|, x)]] <= m.end[b[Prev(|b|, x)]]
    ensures var k := Prev(|b|, x); var c := b[k];
      0 <= m.end[c] < |p| && Copying(b, p0, p[m.end[c] := k], RightMarks(m, c), seenL, seenR + [x], ss)
  {
    var k := Prev(|b|, x);
    var c := b[k];
    RightEdge(b, p0, p, m, seenL, seenR, ss, c);
    hide FilledWith, CopyOf, Placed, Untouched, Preds, Begin;
    var at := m.end[c];
    var p', m' := p[at := k], RightMarks(m, c);
    forall d | 0 <= d < 256 && !m'.done[d] ensures CopyOf(b, p', m', seenL, seenR + [x], ss, d) {
      RightAt(b, p0, p, m, seenL, seenR, ss, x, d);
    }
    RightAt(b, p0, p, m, seenL, seenR, ss, x, c);
    UntouchedMore(b, p0, p, m, p', m', ss, at, c);
  }

  /** A predecessor in a bucket that is done is passed over. */
  lemma CopySkip(b: seq<Byte>, p0: seq<int>, p: seq<int>, m: Marks, seenL: seq<int>, seenR: seq<int>, ss: int, x: nat)
    requires Copying(b, p0, p, m, seenL, seenR, ss) && x < |b| && m.done[b[Prev(|b|, x)]]
    ensures Copying(b, p0, p, m, seenL + [x], seenR, ss) && Copying(b, p0, p, m, seenL, seenR + [x], ss)
  {
    hide FilledWith, Placed, Untouched, Preds;
    forall d | 0 <= d < 256 && !m.done[d]
      ensures CopyOf(b, p, m, seenL + [x], seenR, ss, d) && CopyOf(b, p, m, seenL, seenR + [x], ss, d)
    {
      assert CopyOf(b, p, m, seenL, seenR, ss, d);
      PredsMore(b, seenL, x, d);
      PredsMore(b, seenR, x, d);
      assert Preds(b, seenL, d) + [] == Preds(b, seenL, d) && Preds(b, seenR, d) + [] == Preds(b, seenR, d);
    }
  }
}
