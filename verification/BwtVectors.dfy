/** The decoder's two representations of the walk: 32-bit entries holding byte
    and successor (FAST), and 20-bit successors only, found by reversing the
    pointers of the inverse vector along one cycle (SMALL). */
module BwtVectors {
  import opened Permutations
  import opened Rotations
  import opened Radix
  import opened Bwt

  lemma FilledIsNext(l: seq<int>, next: seq<int>)
    requires |next| == |l| && forall i :: 0 <= i < |l| ==> 0 <= Stable(l, i) < |l| && next[Stable(l, i)] == i
    ensures IsNext(l, next)
  {
    var n := |l|;
    var st := seq(n, i requires 0 <= i < n => Stable(l, i));
    forall i, j | 0 <= i < j < n ensures st[i] != st[j] {
      StableInjective(l, i, j);
    }
    forall k | 0 <= k < n ensures 0 <= next[k] < n && st[next[k]] == k {
      PermOnto(st, k);
      var i :| 0 <= i < n && st[i] == k;
      assert next[Stable(l, i)] == i;
    }
    forall i, j | 0 <= i < j < n ensures next[i] != next[j] {
      assert st[next[i]] == i && st[next[j]] == j;
    }
  }

  // ----- FAST --------------------------------------------------------------

  /** tt[j] holds byte j of the last column and the successor of row j. */
  ghost predicate FastVector(tt: seq<int>, l: seq<Byte>, next: seq<int>) {
    |tt| == |l| == |next| && forall j :: 0 <= j < |l| ==> tt[j] == l[j] + 256 * next[j]
  }

  /** Entries filled for the first i positions; the others still -1. */
  ghost predicate Filled(l: seq<Byte>, next: seq<int>, i: int) {
    && |next| == |l| && 0 <= i <= |l|
    && (forall k :: 0 <= k < i ==> 0 <= Stable(l, k) < |l| && next[Stable(l, k)] == k)
    && (forall j :: 0 <= j < |l| ==> next[j] == -1 || (0 <= next[j] < i && Stable(l, next[j]) == j))
  }

  lemma FilledMore(l: seq<Byte>, next: seq<int>, i: nat)
    requires Filled(l, next, i) && i < |l|
    ensures 0 <= Stable(l, i) < |l| && next[Stable(l, i)] == -1 && Filled(l, next[Stable(l, i) := i], i + 1)
  {
    StableRange(l, i);
    forall k | 0 <= k < i ensures Stable(l, k) != Stable(l, i) {
      StableInjective(l, k, i);
    }
  }

  /** What tt holds while successors are being filled in. */
  ghost predicate Packed(tt: seq<int>, l: seq<Byte>, next: seq<int>) {
    |tt| == |l| == |next| && forall j :: 0 <= j < |l| ==> tt[j] == l[j] + 256 * if next[j] == -1 then 0 else next[j]
  }

  /** Bucket starts advanced past the first i positions. */
  ghost predicate Advanced(cftab: seq<int>, l: seq<Byte>, i: nat) {
    i <= |l| && |cftab| == 257 && forall c :: 0 <= c < 256 ==> cftab[c] == Smaller(l, c, |l|) + Count(l, c, i)
  }

  lemma AdvancedMore(cftab: seq<int>, l: seq<Byte>, i: nat)
    requires Advanced(cftab, l, i) && i < |l|
    ensures cftab[l[i]] == Stable(l, i) && Advanced(cftab[l[i] := cftab[l[i]] + 1], l, i + 1)
  {
  }

  lemma PackMore(tt: seq<int>, l: seq<Byte>, next: seq<int>, i: nat, k: nat)
    requires Packed(tt, l, next) && i < |l| && k < |l| && next[k] == -1
    ensures tt[i] % 256 == l[i] && tt[k] < 256
    ensures Packed(tt[k := tt[k] + 256 * i], l, next[k := i])
  {
    Unpack(l[i], if next[i] == -1 then 0 else next[i]);
  }

  lemma Unpack(c: Byte, x: int)
    ensures (c + 256 * x) % 256 == c && (c + 256 * x) / 256 == x
  {
  }

  /** tt comes in holding the last column, cftab the bucket starts. The field
      or-ed into is still clear, so the or is an addition. */
  method BuildFast(tt: array<int>, cftab: array<int>, ghost l: seq<Byte>) returns (ghost next: seq<int>)
    requires tt != cftab && tt.Length == |l| && Advanced(cftab[..], l, 0)
    requires forall j :: 0 <= j < |l| ==> tt[j] == l[j]
    modifies tt, cftab
    ensures IsNext(l, next) && FastVector(tt[..], l, next)
  {
    hide Filled, Packed, Advanced, IsNext, Stable, FastVector;
    var n := tt.Length;
    next := seq(n, i => -1);
    NothingFilled(tt[..], l, next);
    TableLength(cftab[..], l);
    for i := 0 to n
      invariant |next| == n && cftab.Length == 257
      invariant Filled(l, next, i) && Packed(tt[..], l, next) && Advanced(cftab[..], l, i)
    {
      next := FillOne(tt, cftab, l, next, i);
    }
    FilledAll(l, next);
    PackedAll(tt[..], l, next);
  }

  lemma TableLength(cftab: seq<int>, l: seq<Byte>)
    requires Advanced(cftab, l, 0)
    ensures |cftab| == 257
  {
  }

  lemma NothingFilled(tt: seq<int>, l: seq<Byte>, next: seq<int>)
    requires |tt| == |l| == |next| && (forall j :: 0 <= j < |l| ==> tt[j] == l[j])
      && forall j :: 0 <= j < |l| ==> next[j] == -1
    ensures Filled(l, next, 0) && Packed(tt, l, next)
  {
  }

  /** Position i becomes the successor of the row its byte goes to. */
  method FillOne(tt: array<int>, cftab: array<int>, ghost l: seq<Byte>, ghost next0: seq<int>, i: nat)
      returns (ghost next: seq<int>)
    requires tt != cftab && i < tt.Length == |l| == |next0| && cftab.Length == 257
    requires Filled(l, next0, i) && Packed(tt[..], l, next0) && Advanced(cftab[..], l, i)
    modifies tt, cftab
    ensures |next| == |l| && Filled(l, next, i + 1) && Packed(tt[..], l, next) && Advanced(cftab[..], l, i + 1)
  {
    hide Filled, Packed, Advanced, Stable;
    ghost var t, cf := tt[..], cftab[..];
    FilledMore(l, next0, i);
    PackMore(t, l, next0, i, Stable(l, i));
    AdvancedMore(cf, l, i);
    var uc := tt[i] % 256;
    var k := cftab[uc];
    assert tt[k] < 256;
    tt[k] := tt[k] + 256 * i;
    next := next0[k := i];
    cftab[uc] := k + 1;
    assert tt[..] == t[k := t[k] + 256 * i];
    assert cftab[..] == cf[uc := k + 1];
  }

  lemma FilledAll(l: seq<Byte>, next: seq<int>)
    requires Filled(l, next, |l|)
    ensures IsNext(l, next)
  {
    FilledIsNext(l, next);
  }

  lemma PackedAll(tt: seq<int>, l: seq<Byte>, next: seq<int>)
    requires Packed(tt, l, next) && IsNext(l, next)
    ensures FastVector(tt, l, next)
  {
  }

  // ----- SMALL: 20-bit links -----------------------------------------------

  /** Half of a byte: the low four bits for even places, the high for odd. */
  function Nibble(x: int, half: nat): int {
    if half == 0 then x % 16 else x / 16 % 16
  }

  /** (x & 0xf0) | v, or (x & 0x0f) | (v << 4) */
  function WithNibble(x: int, half: nat, v: int): int {
    if half == 0 then x / 16 * 16 + v else x % 16 + 16 * v
  }

  lemma WithNibbleOf(x: int, half: nat, v: int, other: nat)
    requires 0 <= v < 16 && half < 2 && other < 2 && 0 <= x < 256
    ensures Nibble(WithNibble(x, half, v), other) == if half == other then v else Nibble(x, other)
    ensures 0 <= WithNibble(x, half, v) < 256
  {
  }

  ghost predicate LinkStore(ll16: seq<int>, ll4: seq<int>) {
    && |ll16| <= 2 * |ll4|
    && (forall i :: 0 <= i < |ll16| ==> 0 <= ll16[i] < 0x1_0000)
    && (forall i :: 0 <= i < |ll4| ==> 0 <= ll4[i] < 256)
  }

  /** GET_LL(i) */
  function GetLL(ll16: seq<int>, ll4: seq<int>, i: nat): int
    requires i < |ll16| <= 2 * |ll4|
  {
    ll16[i] + 0x1_0000 * Nibble(ll4[i / 2], i % 2)
  }

  /** SET_LL(i, v): one link changes and no other. */
  method SetLL(ll16: array<int>, ll4: array<int>, i: nat, v: nat)
    requires ll16 != ll4 && i < ll16.Length && v < 0x10_0000 && LinkStore(ll16[..], ll4[..])
    modifies ll16, ll4
    ensures LinkStore(ll16[..], ll4[..])
    ensures GetLL(ll16[..], ll4[..], i) == v
    ensures forall k :: 0 <= k < ll16.Length && k != i ==>
      GetLL(ll16[..], ll4[..], k) == old(GetLL(ll16[..], ll4[..], k))
    ensures forall k :: 0 <= k < ll16.Length && k != i ==> ll16[k] == old(ll16[k])
  {
    ghost var h, q := ll16[..], ll4[..];
    ll16[i] := v % 0x1_0000;
    ll4[i / 2] := WithNibble(ll4[i / 2], i % 2, v / 0x1_0000);
    WithNibbleOf(q[i / 2], i % 2, v / 0x1_0000, i % 2);
    forall k | 0 <= k < |h| && k != i ensures GetLL(ll16[..], ll4[..], k) == GetLL(h, q, k) {
      WithNibbleOf(q[i / 2], i % 2, v / 0x1_0000, k % 2);
    }
  }

  /** The inverse vector: row i goes to where a stable sort puts byte i. */
  method BuildInverse(ll16: array<int>, ll4: array<int>, cftabCopy: array<int>, ghost l: seq<Byte>)
    requires ll16 != ll4 && ll16 != cftabCopy && ll4 != cftabCopy
    requires ll16.Length == |l| <= 0x10_0000 && LinkStore(ll16[..], ll4[..]) && Advanced(cftabCopy[..], l, 0)
    requires forall i :: 0 <= i < |l| ==> ll16[i] == l[i]
    modifies ll16, ll4, cftabCopy
    ensures LinkStore(ll16[..], ll4[..])
    ensures forall i :: 0 <= i < |l| ==> GetLL(ll16[..], ll4[..], i) == Stable(l, i)
  {
    var n := ll16.Length;
    hide Stable, LinkStore;
    LinkLengths(ll16[..], ll4[..]);
    for i := 0 to n
      invariant cftabCopy.Length == 257 && Advanced(cftabCopy[..], l, i)
      invariant LinkStore(ll16[..], ll4[..])
      invariant forall k :: 0 <= k < i ==> GetLL(ll16[..], ll4[..], k) == Stable(l, k)
      invariant forall k :: i <= k < n ==> ll16[k] == l[k]
    {
      ghost var cf := cftabCopy[..];
      AdvancedMore(cf, l, i);
      StableRange(l, i);
      var uc := ll16[i] % 256;
      assert uc == l[i];
      SetLL(ll16, ll4, i, cftabCopy[uc]);
      cftabCopy[uc] := cftabCopy[uc] + 1;
      assert cftabCopy[..] == cf[uc := cf[uc] + 1];
    }
  }

  lemma LinkLengths(ll16: seq<int>, ll4: seq<int>)
    requires LinkStore(ll16, ll4)
    ensures |ll16| <= 2 * |ll4|
  {
  }

  // ----- SMALL: reversing the pointers of one cycle ------------------------

  /** A walk along t from o, without repetition. */
  ghost predicate Path(t: seq<int>, path: seq<int>, o: int) {
    && path != [] && path[0] == o
    && (forall k :: 0 <= k < |path| ==> 0 <= path[k] < |t|)
    && (forall k, m :: 0 <= k < m < |path| ==> path[k] != path[m])
    && (forall k, m :: 0 <= k && m == k + 1 < |path| ==> path[m] == t[path[k]])
  }

  lemma PathLength(t: seq<int>, path: seq<int>, o: int)
    requires Path(t, path, o)
    ensures |path| <= |t|
  {
    EntriesCount(path, |path|);
    BelowCount(|t|);
    SubsetSize(Entries(path, |path|), Below(|t|));
  }

  /** The next place is new, unless the cycle closes. */
  lemma PathGoesOn(t: seq<int>, path: seq<int>, o: int)
    requires Path(t, path, o) && IsPerm(t)
    ensures var j := t[path[|path| - 1]]; j == o || (j !in path && Path(t, path + [j], o))
  {
    var last := |path| - 1;
    var j := t[path[last]];
    if j != o {
      forall m | 0 <= m < |path| ensures path[m] != j {
        if 0 < m {
          assert path[m] == t[path[m - 1]];
          assert path[m - 1] != path[last];
        }
      }
      var longer := path + [j];
      forall k, m | 0 <= k && m == k + 1 < |longer| ensures longer[m] == t[longer[k]] {
        if m < |path| {
          assert path[m] == t[path[k]];
        }
      }
    }
  }

  /** Links along the path so far point back, all others are untouched. */
  ghost predicate Reversed(links: seq<int>, t: seq<int>, path: seq<int>) {
    && |links| == |t| && path != [] && (forall k :: 0 <= k < |path| ==> 0 <= path[k] < |t|)
    && (forall k, m :: 0 <= k && m == k + 1 < |path| ==> links[path[m]] == path[k])
    && (forall x :: 0 <= x < |t| && x !in path[1..] ==> links[x] == t[x])
  }

  lemma ReversedMore(links: seq<int>, t: seq<int>, path: seq<int>, j: int)
    requires Reversed(links, t, path) && 0 <= j < |t| && j !in path[1..]
    ensures Reversed(links[j := path[|path| - 1]], t, path + [j])
  {
    var longer, last := path + [j], path[|path| - 1];
    assert longer[1..] == path[1..] + [j];
    forall k, m | 0 <= k && m == k + 1 < |longer| ensures links[j := last][longer[m]] == longer[k] {
      if m < |path| {
        assert path[m] == path[1..][m - 1];
      }
    }
  }

  /** A closed walk along t, as the vector is left after reversing it. */
  ghost predicate Cycle(links: seq<int>, t: seq<int>, next: seq<int>, path: seq<int>, o: int) {
    && IsPerm(next) && |next| == |t| && (forall i :: 0 <= i < |t| ==> 0 <= t[i] < |t| && next[t[i]] == i)
    && Reversed(links, t, path) && |path| > 1 && path[0] == o && path[|path| - 1] == o && 0 <= o < |t|
    && forall k, m :: 0 <= k && m == k + 1 < |path| ==> path[m] == t[path[k]]
  }

  lemma LinkOnCycle(links: seq<int>, t: seq<int>, next: seq<int>, path: seq<int>, o: int, m: nat)
    requires Cycle(links, t, next, path, o) && 0 < m < |path|
    ensures links[path[m]] == next[path[m]] && next[path[m]] in path[1..]
  {
    assert path[m] == t[path[m - 1]];
    if m == 1 {
      assert path[1..][|path| - 2] == o;
    } else {
      assert path[1..][m - 2] == path[m - 1];
    }
  }

  /** Every row of the walk from o lies on the cycle, and its link is the
      successor the walk takes. */
  lemma {:induction false} CycleReversed(links: seq<int>, t: seq<int>, next: seq<int>, path: seq<int>, o: int, k: nat)
    requires Cycle(links, t, next, path, o)
    ensures Row(next, o, k) in path[1..] && links[Row(next, o, k)] == Row(next, o, k + 1)
  {
    hide Reversed, IsPerm;
    if k == 0 {
      assert path[1..][|path| - 2] == o;
    } else {
      CycleReversed(links, t, next, path, o, k - 1);
      var i :| 0 <= i < |path[1..]| && path[1..][i] == Row(next, o, k - 1);
      LinkOnCycle(links, t, next, path, o, i + 1);
    }
    var i :| 0 <= i < |path[1..]| && path[1..][i] == Row(next, o, k);
    LinkOnCycle(links, t, next, path, o, i + 1);
  }

  /** The links the two arrays hold. */
  ghost function View(ll16: seq<int>, ll4: seq<int>): (v: seq<int>)
    requires |ll16| <= 2 * |ll4|
    ensures |v| == |ll16| && forall i :: 0 <= i < |v| ==> v[i] == GetLL(ll16, ll4, i)
  {
    seq(|ll16|, i requires 0 <= i < |ll16| => GetLL(ll16, ll4, i))
  }

  /** One turn of the reversal: point place j back to where it was reached from. */
  method PointBack(ll16: array<int>, ll4: array<int>, i: nat, j: nat, ghost t: seq<int>, ghost path: seq<int>)
      returns (tmp: int)
    requires ll16 != ll4 && LinkStore(ll16[..], ll4[..]) && ll16.Length <= 0x10_0000 && j < ll16.Length
      && i < ll16.Length
    requires Reversed(View(ll16[..], ll4[..]), t, path) && i == path[|path| - 1] && j !in path[1..]
    modifies ll16, ll4
    ensures LinkStore(ll16[..], ll4[..]) && tmp == t[j]
    ensures Reversed(View(ll16[..], ll4[..]), t, path + [j])
  {
    ghost var v := View(ll16[..], ll4[..]);
    ReversedMore(v, t, path, j);
    tmp := GetLL(ll16[..], ll4[..], j);
    hide Reversed;
    SetLL(ll16, ll4, j, i);
    assert View(ll16[..], ll4[..]) == v[j := i];
  }

  /** Reverse the pointers along the cycle through o. */
  method ReverseCycle(ll16: array<int>, ll4: array<int>, o: nat, ghost t: seq<int>, ghost next: seq<int>)
    requires ll16 != ll4 && ll16.Length <= 0x10_0000 && LinkStore(ll16[..], ll4[..]) && o < ll16.Length == |t| == |next|
    requires IsPerm(t) && IsPerm(next) && View(ll16[..], ll4[..]) == t && forall i :: 0 <= i < |t| ==> next[t[i]] == i
    modifies ll16, ll4
    ensures LinkStore(ll16[..], ll4[..])
    ensures forall k: nat :: GetLL(ll16[..], ll4[..], Row(next, o, k)) == Row(next, o, k + 1)
  {
    var i, j := o, GetLL(ll16[..], ll4[..], o);
    ghost var path := [o];
    assert Path(t, path, o) && Reversed(t, t, path);
    hide Path, Reversed, LinkStore;
    while true
      invariant 0 <= i < |t| && 0 <= j < |t| && LinkStore(ll16[..], ll4[..]) && ll16.Length <= 2 * ll4.Length
      invariant path != [] && Path(t, path, o) && i == path[|path| - 1] && j == t[i]
      invariant Reversed(View(ll16[..], ll4[..]), t, path)
      decreases |t| - |path|
    {
      PathGoesOn(t, path, o);
      PathLength(t, path, o);
      NotAgain(t, path, o, j);
      var tmp := PointBack(ll16, ll4, i, j, t, path);
      LinkLengths(ll16[..], ll4[..]);
      i, j := j, tmp;
      if i == o {
        break;
      }
      path := path + [i];
      PathLength(t, path, o);
    }
    Closed(View(ll16[..], ll4[..]), t, next, path, o);
  }

  lemma Closed(links: seq<int>, t: seq<int>, next: seq<int>, path: seq<int>, o: int)
    requires IsPerm(t) && IsPerm(next) && |next| == |t| == |links| && forall i :: 0 <= i < |t| ==> next[t[i]] == i
    requires Path(t, path, o) && t[path[|path| - 1]] == o && Reversed(links, t, path + [o])
    ensures forall k: nat :: links[Row(next, o, k)] == Row(next, o, k + 1)
  {
    var longer := path + [o];
    forall k, m | 0 <= k && m == k + 1 < |longer| ensures longer[m] == t[longer[k]] {
      if m < |path| {
        assert path[m] == t[path[k]];
      }
    }
    forall k: nat ensures links[Row(next, o, k)] == Row(next, o, k + 1) {
      CycleReversed(links, t, next, longer, o, k);
    }
  }

  lemma NotAgain(t: seq<int>, path: seq<int>, o: int, j: int)
    requires Path(t, path, o) && (j == o || j !in path)
    ensures j !in path[1..]
  {
  }
}
