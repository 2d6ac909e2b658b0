/** Counting and bucket sorting: how many entries are equal to, below or at most
    a value, and the places a bucket sort gives them. */
module Radix {
  import opened Permutations
  import opened Rotations

  /** How many of the first i bytes are c. */
  function Count(b: seq<int>, c: int, i: nat): nat
    requires i <= |b|
  {
    if i == 0 then 0 else Count(b, c, i - 1) + if b[i - 1] == c then 1 else 0
  }

  lemma {:induction false} CountAbsent(b: seq<int>, c: int, i: nat)
    requires i <= |b| && forall x :: 0 <= x < i ==> b[x] != c
    ensures Count(b, c, i) == 0
  {
    if i > 0 {
      CountAbsent(b, c, i - 1);
    }
  }

  lemma {:induction false} CountEqual(b: seq<int>, c: int, i: nat)
    requires i <= |b| && forall x :: 0 <= x < |b| ==> b[x] == c
    ensures Count(b, c, i) == i
  {
    if i > 0 {
      CountEqual(b, c, i - 1);
    }
  }

  lemma {:induction false} CountOver(s: seq<int>, t: seq<int>, c: int, i: nat)
    requires i <= |t|
    ensures Count(s + t, c, |s| + i) == Count(s, c, |s|) + Count(t, c, i)
  {
    if i > 0 {
      CountOver(s, t, c, i - 1);
    } else {
      CountPrefix(s, t, c, |s|);
    }
  }

  lemma {:induction false} CountPrefix(s: seq<int>, t: seq<int>, c: int, i: nat)
    requires i <= |s|
    ensures Count(s + t, c, i) == Count(s, c, i)
  {
    if i > 0 {
      CountPrefix(s, t, c, i - 1);
    }
  }

  /** The first i places that hold c. */
  ghost function WithKey(b: seq<int>, c: int, i: nat): (r: set<int>)
    requires i <= |b|
    ensures forall x :: x in r <==> 0 <= x < i && b[x] == c
    ensures |r| == Count(b, c, i)
  {
    if i == 0 then {} else if b[i - 1] == c then WithKey(b, c, i - 1) + {i - 1} else WithKey(b, c, i - 1)
  }

  /** How many of the first i bytes are below c. */
  function Smaller(b: seq<int>, c: int, i: nat): nat
    requires i <= |b|
  {
    if i == 0 then 0 else Smaller(b, c, i - 1) + if b[i - 1] < c then 1 else 0
  }

  /** How many of the first i bytes are at most c. */
  function UpTo(b: seq<int>, c: int, i: nat): nat
    requires i <= |b|
  {
    Smaller(b, c + 1, i)
  }

  lemma {:induction false} SmallerNext(b: seq<int>, c: int, i: nat)
    requires i <= |b|
    ensures Smaller(b, c + 1, i) == Smaller(b, c, i) + Count(b, c, i)
  {
    if i != 0 {
      SmallerNext(b, c, i - 1);
    }
  }

  lemma {:induction false} SmallerMonotone(b: seq<int>, c: int, d: int, i: nat)
    requires i <= |b| && c <= d
    ensures Smaller(b, c, i) <= Smaller(b, d, i)
  {
    if i != 0 {
      SmallerMonotone(b, c, d, i - 1);
    }
  }

  lemma UpToMonotone(b: seq<int>, c: int, d: int, i: nat)
    requires i <= |b| && c < d
    ensures UpTo(b, c, i) <= Smaller(b, d, i)
  {
    SmallerMonotone(b, c + 1, d, i);
  }

  lemma {:induction false} SmallerBound(b: seq<int>, c: int, i: nat)
    requires i <= |b|
    ensures Smaller(b, c, i) <= i
    ensures (forall k :: 0 <= k < |b| ==> b[k] < c) ==> Smaller(b, c, i) == i
    ensures (forall k :: 0 <= k < |b| ==> b[k] >= c) ==> Smaller(b, c, i) == 0
  {
    if i != 0 {
      SmallerBound(b, c, i - 1);
    }
  }

  lemma SmallerEnds(b: seq<Byte>, i: nat)
    requires i <= |b|
    ensures Smaller(b, 0, i) == 0 && Smaller(b, 256, i) == i
  {
    SmallerBound(b, 0, i);
    SmallerBound(b, 256, i);
  }

  lemma {:induction false} CountMonotone(b: seq<int>, c: int, i: nat, j: nat)
    requires i <= j <= |b|
    ensures Count(b, c, i) <= Count(b, c, j)
    ensures i < j && b[i] == c ==> Count(b, c, i) < Count(b, c, j)
    decreases j
  {
    if i < j {
      CountMonotone(b, c, i, j - 1);
    }
  }

  /** The place the bucket sort gives byte i. */
  function Pos(b: seq<int>, i: nat): int
    requires i < |b|
  {
    UpTo(b, b[i], |b|) - Count(b, b[i], i) - 1
  }

  /** It lies in the bucket of its byte. */
  lemma PosInBucket(b: seq<int>, i: nat)
    requires i < |b|
    ensures 0 <= Smaller(b, b[i], |b|) <= Pos(b, i) < UpTo(b, b[i], |b|) <= |b|
  {
    SmallerNext(b, b[i], |b|);
    CountMonotone(b, b[i], i, |b|);
    SmallerBound(b, b[i] + 1, |b|);
  }

  lemma PosInjective(b: seq<int>, i: nat, j: nat)
    requires i < j < |b|
    ensures Pos(b, i) != Pos(b, j)
  {
    PosInBucket(b, i);
    PosInBucket(b, j);
    if b[i] == b[j] {
      CountMonotone(b, b[i], i, j);
    } else if b[i] < b[j] {
      UpToMonotone(b, b[i], b[j], |b|);
    } else {
      UpToMonotone(b, b[j], b[i], |b|);
    }
  }

  /** Every place holds a rotation whose first byte owns that place. */
  ghost predicate Placed(b: seq<int>, f: seq<int>) {
    && |f| == |b| && IsPerm(f)
    && forall k :: 0 <= k < |f| ==> Smaller(b, b[f[k]], |b|) <= k < UpTo(b, b[f[k]], |b|)
  }

  lemma FilledIsPlaced(b: seq<int>, f: seq<int>)
    requires |f| == |b| && forall i :: 0 <= i < |b| ==> 0 <= Pos(b, i) < |b| && f[Pos(b, i)] == i
    ensures Placed(b, f)
  {
    var n := |b|;
    var pos := seq(n, i requires 0 <= i < n => Pos(b, i));
    forall i, j | 0 <= i < j < n ensures pos[i] != pos[j] {
      PosInjective(b, i, j);
    }
    forall k | 0 <= k < n ensures 0 <= f[k] < n && pos[f[k]] == k {
      PermOnto(pos, k);
      var i :| 0 <= i < n && pos[i] == k;
      assert f[Pos(b, i)] == i;
    }
    forall k | 0 <= k < n ensures Smaller(b, b[f[k]], n) <= k < UpTo(b, b[f[k]], n) {
      PosInBucket(b, f[k]);
    }
    forall i, j | 0 <= i < j < n ensures f[i] != f[j] {
      assert pos[f[i]] == i && pos[f[j]] == j;
    }
  }

  /** Rearranging within equal first bytes keeps every place in its bucket. */
  lemma StillPlaced(b: seq<int>, f: seq<int>, f': seq<int>)
    requires Placed(b, f) && |f'| == |f| && IsPerm(f') && forall k :: 0 <= k < |f| ==> b[f'[k]] == b[f[k]]
    ensures Placed(b, f')
  {
  }
}
