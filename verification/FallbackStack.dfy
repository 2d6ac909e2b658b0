/** fallbackQSort3 as a whole: the explicit stack of ranges still to sort. */
module FallbackStack {
  import opened Arithmetic
  import opened Permutations
  import opened FallbackQSort
  import opened FallbackPartition

  const SMALL_THRESH := 10
  const STACK_SIZE := 100

  /** The number of places a 32-bit signed index can tell apart. */
  const INT_RANGE := 0x8000_0000

  datatype Span = Span(lo: int, hi: int) {
    function Size(): int { hi - lo + 1 }
  }

  /** Some span on the stack covers both a and b. */
  ghost predicate Covered(st: seq<Span>, a: int, b: int) {
    exists k :: 0 <= k < |st| && st[k].lo <= a && b <= st[k].hi
  }

  ghost predicate Apart(p: Span, q: Span) {
    p.hi < q.lo || q.hi < p.lo
  }

  /** The spans lie within the range being sorted and do not overlap. */
  ghost predicate ValidStack(st: seq<Span>, lo: int, hi: int) {
    && (forall k :: 0 <= k < |st| ==> lo <= st[k].lo <= st[k].hi + 1 <= hi + 1)
    && (forall k, l :: 0 <= k < l < |st| ==> Apart(st[k], st[l]))
  }

  /** Any two entries are in order unless one pending span covers both. */
  ghost predicate SortedExcept(e: seq<int>, s: seq<int>, lo: int, hi: int, st: seq<Span>) {
    && 0 <= lo && hi < |s| && InRange(s, |e|)
    && forall a, b :: lo <= a < b <= hi ==> Ord(e, s, a, b) || Covered(st, a, b)
  }

  /** The span in slot k holds at most a 2^k-th of all entries. */
  ghost predicate Shrinking(st: seq<Span>, total: int) {
    forall k :: 0 <= k < |st| ==> st[k].Size() * Pow2(k) <= total
  }

  ghost function Work(st: seq<Span>): int {
    if st == [] then 0 else Work(st[..|st| - 1]) + 2 * st[|st| - 1].Size() + 1
  }

  lemma CoveredRest(rest: seq<Span>, p: Span, a: int, b: int)
    requires Covered(rest + [p], a, b) && !(p.lo <= a && b <= p.hi)
    ensures Covered(rest, a, b)
  {
  }

  lemma CoveredMore(rest: seq<Span>, parts: seq<Span>, a: int, b: int)
    requires Covered(rest, a, b) || Covered(parts, a, b)
    ensures Covered(rest + parts, a, b)
  {
    var all := rest + parts;
    if Covered(rest, a, b) {
      var k :| 0 <= k < |rest| && rest[k].lo <= a && b <= rest[k].hi;
      assert all[k] == rest[k];
    } else {
      var k :| 0 <= k < |parts| && parts[k].lo <= a && b <= parts[k].hi;
      assert all[|rest| + k] == parts[k];
    }
  }

  /** No span covers an entry inside the popped span and one outside. */
  lemma NotCovered(st: seq<Span>, lo: int, hi: int, a: int, b: int)
    requires ValidStack(st, lo, hi) && st != [] && a < b
    requires var p := st[|st| - 1]; (p.lo <= a <= p.hi) != (p.lo <= b <= p.hi)
    ensures !Covered(st, a, b)
  {
    var p := st[|st| - 1];
    forall k | 0 <= k < |st| ensures !(st[k].lo <= a && b <= st[k].hi) {
      if k < |st| - 1 {
        assert Apart(st[k], p);
      }
    }
  }

  /** An entry outside the popped span is in order with every entry inside it. */
  lemma OutsideInside(e: seq<int>, s: seq<int>, lo: int, hi: int, rest: seq<Span>, p: Span, a: int, b: int)
    requires SortedExcept(e, s, lo, hi, rest + [p]) && ValidStack(rest + [p], lo, hi) && lo <= a < b <= hi
    requires (p.lo <= a <= p.hi) != (p.lo <= b <= p.hi)
    ensures Ord(e, s, a, b)
  {
    NotCovered(rest + [p], lo, hi, a, b);
  }

  lemma OneReplaced(e: seq<int>, s: seq<int>, t: seq<int>, lo: int, hi: int, rest: seq<Span>, p: Span, a: int, b: int)
    requires SortedExcept(e, s, lo, hi, rest + [p]) && ValidStack(rest + [p], lo, hi) && lo <= a < b <= hi
    requires Permuted(s, t, p.lo, p.hi) && InRange(t, |e|)
    requires (p.lo <= a <= p.hi) != (p.lo <= b <= p.hi)
    ensures Ord(e, t, a, b)
  {
    hide SortedExcept;
    Bounds(e, s, lo, hi, rest, p);
    if p.lo <= a <= p.hi {
      PermutedMember(s, t, p.lo, p.hi, a);
      var j :| p.lo <= j <= p.hi && s[j] == t[a];
      OutsideInside(e, s, lo, hi, rest, p, j, b);
    } else {
      PermutedMember(s, t, p.lo, p.hi, b);
      var j :| p.lo <= j <= p.hi && s[j] == t[b];
      OutsideInside(e, s, lo, hi, rest, p, a, j);
    }
  }

  lemma Bounds(e: seq<int>, s: seq<int>, lo: int, hi: int, rest: seq<Span>, p: Span)
    requires SortedExcept(e, s, lo, hi, rest + [p]) && ValidStack(rest + [p], lo, hi)
    ensures 0 <= lo <= p.lo && p.hi <= hi < |s| && InRange(s, |e|)
  {
    assert (rest + [p])[|rest|] == p;
  }

  /** Sorting the popped span, except for the parts pushed back, keeps the
      whole range sorted except for what is on the stack. */
  lemma Replaced(e: seq<int>, s: seq<int>, t: seq<int>, lo: int, hi: int, rest: seq<Span>, p: Span, parts: seq<Span>)
    requires SortedExcept(e, s, lo, hi, rest + [p]) && ValidStack(rest + [p], lo, hi)
    requires Permuted(s, t, p.lo, p.hi) && InRange(t, |e|)
    requires SortedExcept(e, t, p.lo, p.hi, parts)
    ensures SortedExcept(e, t, lo, hi, rest + parts)
  {
    Bounds(e, s, lo, hi, rest, p);
    forall a, b | lo <= a < b <= hi ensures Ord(e, t, a, b) || Covered(rest + parts, a, b) {
      if p.lo <= a && b <= p.hi {
        if Covered(parts, a, b) {
          CoveredMore(rest, parts, a, b);
        }
      } else if (p.lo <= a <= p.hi) != (p.lo <= b <= p.hi) {
        OneReplaced(e, s, t, lo, hi, rest, p, a, b);
      } else {
        BothOutside(e, s, t, lo, hi, rest, p, a, b);
        if Covered(rest, a, b) {
          CoveredMore(rest, parts, a, b);
        }
      }
    }
  }

  lemma BothOutside(e: seq<int>, s: seq<int>, t: seq<int>, lo: int, hi: int, rest: seq<Span>, p: Span, a: int, b: int)
    requires SortedExcept(e, s, lo, hi, rest + [p]) && lo <= a < b <= hi
    requires Permuted(s, t, p.lo, p.hi) && InRange(t, |e|)
    requires !(p.lo <= a <= p.hi) && !(p.lo <= b <= p.hi)
    ensures Ord(e, t, a, b) || Covered(rest, a, b)
  {
    assert Ord(e, s, a, b) || Covered(rest + [p], a, b);
    if Covered(rest + [p], a, b) {
      CoveredRest(rest, p, a, b);
    }
  }

  // ----- dividing one span -------------------------------------------------

  /** The three choices of pivot position. */
  function PivotAt(lo: int, hi: int, r: nat): int {
    if r % 3 == 0 then lo else if r % 3 == 1 then (lo + hi) / 2 else hi
  }

  lemma PartedSorted(e: seq<int>, s: seq<int>, lo: int, hi: int, med: int, n: int, m: int)
    requires Parted(e, s, lo, hi, med, n, m)
    ensures SortedExcept(e, s, lo, hi, [Span(lo, n), Span(m, hi)])
    ensures SortedExcept(e, s, lo, hi, [Span(m, hi), Span(lo, n)])
  {
    forall a, b | lo <= a < b <= hi
      ensures Ord(e, s, a, b) || (Covered([Span(lo, n), Span(m, hi)], a, b) && Covered([Span(m, hi), Span(lo, n)], a, b))
    {
      if b <= n {
        assert [Span(lo, n), Span(m, hi)][0].lo <= a && [Span(m, hi), Span(lo, n)][1].lo <= a;
      } else if m <= a {
        assert [Span(lo, n), Span(m, hi)][1].lo <= a && [Span(m, hi), Span(lo, n)][0].lo <= a;
      }
    }
  }

  /** The pivot class occurs, so the middle part is not empty. */
  lemma MiddleNotEmpty(e: seq<int>, s: seq<int>, t: seq<int>, lo: nat, hi: nat, x: nat, n: int, m: int)
    requires lo <= x <= hi < |s| && Permuted(s, t, lo, hi) && InRange(s, |e|) && Parted(e, t, lo, hi, e[s[x]], n, m)
    ensures n + 1 < m
  {
    PermutedMember(t, s, lo, hi, x);
    var j :| lo <= j <= hi && t[j] == s[x];
    assert !(j <= n) && !(j >= m);
  }

  lemma FlatPivot(e: seq<int>, med: int, x: nat)
    requires x < |e| && med == e[x]
    ensures Flat(e) ==> OnlyPivot(e, med)
  {
  }

  /** Sort a short span outright; split a long one in two. */
  method Divide(fmap: array<int>, e: seq<int>, lo: nat, hi: int, r: nat) returns (n: int, m: int, split: bool)
    requires InRange(fmap[..], |e|) && hi < fmap.Length && lo <= hi + 1
    modifies fmap
    ensures Permuted(old(fmap[..]), fmap[..], lo, hi) && InRange(fmap[..], |e|)
    ensures !split ==> SortedExcept(e, fmap[..], lo, hi, [])
    ensures split ==> hi - lo >= SMALL_THRESH && lo - 1 <= n && n + 1 < m <= hi + 1
    ensures split ==> SortedExcept(e, fmap[..], lo, hi, [Span(lo, n), Span(m, hi)])
    ensures split ==> SortedExcept(e, fmap[..], lo, hi, [Span(m, hi), Span(lo, n)])
    ensures Flat(e) ==> !split && fmap[..] == old(fmap[..])
  {
    n, m, split := 0, 0, false;
    if hi - lo < SMALL_THRESH {
      SimpleSort(fmap, e, lo, hi);
      return;
    }
    ghost var s := fmap[..];
    var x := PivotAt(lo, hi, r);
    FlatPivot(e, e[fmap[x]], fmap[x]);
    var allEqual: bool;
    n, m, allEqual := Partition(fmap, e, lo, hi, e[fmap[x]]);
    split := !allEqual;
    if split {
      hide Permuted;
      PartedSorted(e, fmap[..], lo, hi, e[s[x]], n, m);
      MiddleNotEmpty(e, s, fmap[..], lo, hi, x, n, m);
    }
  }

  // ----- the stack ---------------------------------------------------------

  const MAX_DEPTH := 30

  /** What holds between two turns of the loop: the range is a rearrangement of
      the original, sorted except for the pending spans, and the stack is
      shallow because each slot holds at most half of what the slot below may. */
  ghost predicate Pending(e: seq<int>, start: seq<int>, s: seq<int>, lo: int, hi: int, st: seq<Span>) {
    && Permuted(start, s, lo, hi) && SortedExcept(e, s, lo, hi, st)
    && ValidStack(st, lo, hi) && Shrinking(st, hi - lo + 1) && |st| <= MAX_DEPTH
  }

  lemma WorkMore(st: seq<Span>, p: Span)
    ensures Work(st + [p]) == Work(st) + 2 * p.Size() + 1
  {
    assert (st + [p])[..|st|] == st;
  }

  lemma {:induction false} WorkNotNegative(st: seq<Span>, lo: int, hi: int)
    requires ValidStack(st, lo, hi)
    ensures Work(st) >= 0
  {
    if st != [] {
      WorkNotNegative(st[..|st| - 1], lo, hi);
    }
  }

  lemma ValidRest(rest: seq<Span>, p: Span, lo: int, hi: int)
    requires ValidStack(rest + [p], lo, hi)
    ensures ValidStack(rest, lo, hi) && lo <= p.lo <= p.hi + 1 <= hi + 1
    ensures forall k :: 0 <= k < |rest| ==> Apart(rest[k], p)
  {
    var st := rest + [p];
    assert st[|rest|] == p && forall k :: 0 <= k < |rest| ==> st[k] == rest[k];
  }

  lemma ValidParts(rest: seq<Span>, p: Span, q1: Span, q2: Span, lo: int, hi: int)
    requires ValidStack(rest + [p], lo, hi) && Apart(q1, q2) && p.lo <= p.hi
    requires p.lo <= q1.lo <= q1.hi + 1 <= p.hi + 1 && p.lo <= q2.lo <= q2.hi + 1 <= p.hi + 1
    ensures ValidStack(rest + [q1, q2], lo, hi)
  {
    ValidRest(rest, p, lo, hi);
  }

  lemma ShrinkingRest(rest: seq<Span>, p: Span, total: int)
    requires Shrinking(rest + [p], total)
    ensures Shrinking(rest, total) && p.Size() * Pow2(|rest|) <= total
  {
    var st := rest + [p];
    assert st[|rest|] == p && forall k :: 0 <= k < |rest| ==> st[k] == rest[k];
  }

  lemma Smaller(a: int, b: int, p: nat, total: int)
    requires a <= b && b * p <= total
    ensures a * p <= total
  {
    assert a * p <= b * p;
  }

  /** The larger part takes the slot of the span, the smaller the next slot. */
  lemma ShrinkingParts(rest: seq<Span>, p: Span, big: Span, small: Span, total: int)
    requires Shrinking(rest + [p], total)
    requires small.Size() <= big.Size() && big.Size() + small.Size() < p.Size() && 0 <= small.Size()
    ensures Shrinking(rest + [big, small], total)
  {
    ShrinkingRest(rest, p, total);
    var k := |rest|;
    Smaller(big.Size(), p.Size(), Pow2(k), total);
    Smaller(2 * small.Size(), p.Size(), Pow2(k), total);
    assert small.Size() * Pow2(k + 1) == 2 * small.Size() * Pow2(k);
    var st := rest + [big, small];
    forall i | 0 <= i < |st| ensures st[i].Size() * Pow2(i) <= total {
      if i < k {
        assert st[i] == rest[i];
      }
    }
  }

  lemma Pow2At28()
    ensures Pow2(28) == 0x1000_0000
  {
    assert Pow2(14) == 0x4000;
    Pow2Add(14, 14);
  }

  /** A span long enough to split sits low on the stack. */
  lemma Shallow(rest: seq<Span>, p: Span, total: int)
    requires Shrinking(rest + [p], total) && p.Size() > SMALL_THRESH && total <= INT_RANGE
    ensures |rest| + 2 <= MAX_DEPTH
  {
    ShrinkingRest(rest, p, total);
    if |rest| > 28 {
      Pow2Monotone(28, |rest|);
      Pow2At28();
      Smaller(11, p.Size(), Pow2(|rest|), total);
    }
  }

  lemma Finished(e: seq<int>, start: seq<int>, s: seq<int>, t: seq<int>, lo: int, hi: int, rest: seq<Span>, p: Span)
    requires Pending(e, start, s, lo, hi, rest + [p])
    requires Permuted(s, t, p.lo, p.hi) && InRange(t, |e|) && SortedExcept(e, t, p.lo, p.hi, [])
    ensures Pending(e, start, t, lo, hi, rest) && Work(rest) < Work(rest + [p])
  {
    hide Permuted, SortedExcept;
    Replaced(e, s, t, lo, hi, rest, p, []);
    assert rest + [] == rest;
    ValidRest(rest, p, lo, hi);
    ShrinkingRest(rest, p, hi - lo + 1);
    PermutedWiden(s, t, p.lo, p.hi, lo, hi);
    PermutedTrans(start, s, t, lo, hi);
    WorkMore(rest, p);
  }

  lemma SplitUp(e: seq<int>, start: seq<int>, s: seq<int>, t: seq<int>, lo: int, hi: int, rest: seq<Span>, p: Span,
      big: Span, small: Span)
    requires Pending(e, start, s, lo, hi, rest + [p]) && p.Size() > SMALL_THRESH && hi - lo + 1 <= INT_RANGE
    requires Permuted(s, t, p.lo, p.hi) && InRange(t, |e|) && SortedExcept(e, t, p.lo, p.hi, [big, small])
    requires Apart(big, small) && 0 <= small.Size() <= big.Size() && big.Size() + small.Size() < p.Size()
    requires p.lo <= big.lo && big.hi <= p.hi && p.lo <= small.lo && small.hi <= p.hi
    ensures Pending(e, start, t, lo, hi, rest + [big, small]) && Work(rest + [big, small]) < Work(rest + [p])
  {
    hide Permuted, SortedExcept, Shrinking, ValidStack;
    Replaced(e, s, t, lo, hi, rest, p, [big, small]);
    ValidParts(rest, p, big, small, lo, hi);
    ShrinkingParts(rest, p, big, small, hi - lo + 1);
    Shallow(rest, p, hi - lo + 1);
    RangeInside(rest, p, lo, hi);
    PermutedWiden(s, t, p.lo, p.hi, lo, hi);
    PermutedTrans(start, s, t, lo, hi);
    WorkMore(rest, p);
    WorkMore(rest, big);
    WorkMore(rest + [big], small);
    assert rest + [big] + [small] == rest + [big, small];
  }

  lemma RangeInside(rest: seq<Span>, p: Span, lo: int, hi: int)
    requires ValidStack(rest + [p], lo, hi)
    ensures lo <= p.lo <= p.hi + 1 <= hi + 1
  {
    ValidRest(rest, p, lo, hi);
  }

  lemma NothingPending(e: seq<int>, start: seq<int>, s: seq<int>, lo: int, hi: int)
    requires Pending(e, start, s, lo, hi, [])
    ensures Permuted(start, s, lo, hi) && InRange(s, |e|) && 0 <= lo && hi < |s| && SortedRange(e, s, lo, hi)
  {
    forall a, b | lo <= a < b <= hi ensures Ord(e, s, a, b) {
      assert Ord(e, s, a, b) || Covered([], a, b);
    }
  }

  lemma AllPending(e: seq<int>, s: seq<int>, lo: int, hi: int)
    requires 0 <= lo <= hi < |s| && InRange(s, |e|)
    ensures Pending(e, s, s, lo, hi, [Span(lo, hi)])
  {
    forall a, b | lo <= a < b <= hi ensures Covered([Span(lo, hi)], a, b) {
      assert [Span(lo, hi)][0].lo <= a;
    }
  }

  ghost predicate Mirrors(stackLo: seq<int>, stackHi: seq<int>, st: seq<Span>) {
    && |st| <= |stackLo| == |stackHi|
    && forall k :: 0 <= k < |st| ==> stackLo[k] == st[k].lo && stackHi[k] == st[k].hi
  }

  lemma Top(stackLo: seq<int>, stackHi: seq<int>, st: seq<Span>)
    requires Mirrors(stackLo, stackHi, st) && st != []
    ensures var n := |st| - 1; st == st[..n] + [Span(stackLo[n], stackHi[n])] && Mirrors(stackLo, stackHi, st[..n])
  {
  }

  /** fpush */
  method Push(stackLo: array<int>, stackHi: array<int>, sp: nat, p: Span, ghost st: seq<Span>)
    requires stackLo != stackHi && sp == |st| < stackLo.Length && Mirrors(stackLo[..], stackHi[..], st)
    modifies stackLo, stackHi
    ensures Mirrors(stackLo[..], stackHi[..], st + [p])
  {
    stackLo[sp], stackHi[sp] := p.lo, p.hi;
  }

  method PushParts(stackLo: array<int>, stackHi: array<int>, sp: nat, parts: seq<Span>, ghost rest: seq<Span>)
      returns (sp': nat)
    requires stackLo != stackHi && sp == |rest| && sp + 2 <= stackLo.Length && Mirrors(stackLo[..], stackHi[..], rest)
    requires |parts| == 0 || |parts| == 2
    modifies stackLo, stackHi
    ensures sp' == |rest + parts| && Mirrors(stackLo[..], stackHi[..], rest + parts)
  {
    sp' := sp;
    if |parts| == 2 {
      Push(stackLo, stackHi, sp, parts[0], rest);
      Push(stackLo, stackHi, sp + 1, parts[1], rest + [parts[0]]);
      assert rest + parts == rest + [parts[0]] + [parts[1]];
      sp' := sp + 2;
    } else {
      assert rest + parts == rest;
    }
  }

  /** One turn of the loop: divide the popped span, push what is left of it. */
  method Turn(fmap: array<int>, e: seq<int>, ghost start: seq<int>, ghost loSt: nat, ghost hiSt: nat,
      ghost rest: seq<Span>, p: Span, r0: nat)
    returns (r: nat, parts: seq<Span>)
    requires hiSt < fmap.Length && hiSt - loSt + 1 <= INT_RANGE && |start| == fmap.Length
    requires Pending(e, start, fmap[..], loSt, hiSt, rest + [p])
    modifies fmap
    ensures Pending(e, start, fmap[..], loSt, hiSt, rest + parts) && Work(rest + parts) < Work(rest + [p])
    ensures |parts| == 0 || |parts| == 2
    ensures Flat(e) ==> fmap[..] == old(fmap[..])
  {
    ghost var s := fmap[..];
    PendingBounds(e, start, s, loSt, hiSt, rest + [p]);
    assert (rest + [p])[|rest|] == p;
    hide Pending, Permuted, SortedExcept, Flat;
    r := if p.hi - p.lo < SMALL_THRESH then r0 else (r0 * 7621 + 1) % 32768;
    var n, m, split := Divide(fmap, e, p.lo, p.hi, r);
    if !split {
      parts := [];
      Finished(e, start, s, fmap[..], loSt, hiSt, rest, p);
      assert rest + [] == rest;
    } else {
      var big, small := Span(m, p.hi), Span(p.lo, n);
      if n - p.lo > p.hi - m {
        big, small := small, big;
      }
      parts := [big, small];
      SplitUp(e, start, s, fmap[..], loSt, hiSt, rest, p, big, small);
    }
  }

  /** fallbackQSort3: sorts the range by class and only rearranges it. The stack
      of 100 slots never overflows on a range of up to 2^31 entries. */
  method QSort3(fmap: array<int>, e: seq<int>, loSt: nat, hiSt: nat)
    requires loSt <= hiSt < fmap.Length && InRange(fmap[..], |e|)
    requires hiSt - loSt + 1 <= INT_RANGE
    modifies fmap
    ensures Permuted(old(fmap[..]), fmap[..], loSt, hiSt) && InRange(fmap[..], |e|)
    ensures SortedRange(e, fmap[..], loSt, hiSt)
    ensures Flat(e) ==> fmap[..] == old(fmap[..])
  {
    ghost var start := fmap[..];
    var stackLo, stackHi := new int[STACK_SIZE], new int[STACK_SIZE];
    ghost var st: seq<Span> := [];
    Push(stackLo, stackHi, 0, Span(loSt, hiSt), st);
    var r, sp := 0, 1;
    st := st + [Span(loSt, hiSt)];
    assert st == [Span(loSt, hiSt)];
    AllPending(e, start, loSt, hiSt);
    hide Pending, Permuted, SortedRange, Mirrors, Flat;
    while sp > 0
      invariant sp == |st| && Mirrors(stackLo[..], stackHi[..], st)
      invariant Pending(e, start, fmap[..], loSt, hiSt, st) && (Flat(e) ==> fmap[..] == start)
      decreases Work(st)
    {
      PendingDepth(e, start, fmap[..], loSt, hiSt, st);
      assert sp < STACK_SIZE - 1;  // AssertH 1004
      sp := sp - 1;
      var p := Span(stackLo[sp], stackHi[sp]);
      ghost var rest := st[..sp];
      Top(stackLo[..], stackHi[..], st);
      var parts;
      r, parts := Turn(fmap, e, start, loSt, hiSt, rest, p, r);
      st := rest + parts;
      sp := PushParts(stackLo, stackHi, sp, parts, rest);
    }
    NothingPending(e, start, fmap[..], loSt, hiSt);
  }

  lemma PendingDepth(e: seq<int>, start: seq<int>, s: seq<int>, lo: int, hi: int, st: seq<Span>)
    requires Pending(e, start, s, lo, hi, st)
    ensures |st| <= MAX_DEPTH && Work(st) >= 0
  {
    WorkNotNegative(st, lo, hi);
  }

  lemma PendingBounds(e: seq<int>, start: seq<int>, s: seq<int>, lo: int, hi: int, st: seq<Span>)
    requires Pending(e, start, s, lo, hi, st)
    ensures |st| <= MAX_DEPTH && InRange(s, |e|) && 0 <= lo && hi < |s| && Work(st) >= 0
    ensures forall k :: 0 <= k < |st| ==> lo <= st[k].lo <= st[k].hi + 1 <= hi + 1
  {
    WorkNotNegative(st, lo, hi);
  }
}
