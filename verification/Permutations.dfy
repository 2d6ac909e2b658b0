/** Rearranging part of a sequence, and permutations of 0..n-1. */
module Permutations {
  /** t is s with the entries at lo..hi rearranged. */
  ghost predicate Permuted<T>(s: seq<T>, t: seq<T>, lo: int, hi: int) {
    && |s| == |t|
    && multiset(s) == multiset(t)
    && forall i :: 0 <= i < |s| && (i < lo || hi < i) ==> s[i] == t[i]
  }

  lemma PermutedRefl<T>(s: seq<T>, lo: int, hi: int)
    ensures Permuted(s, s, lo, hi)
  {
  }

  lemma PermutedTrans<T>(s: seq<T>, t: seq<T>, u: seq<T>, lo: int, hi: int)
    requires Permuted(s, t, lo, hi) && Permuted(t, u, lo, hi)
    ensures Permuted(s, u, lo, hi)
  {
  }

  lemma PermutedWiden<T>(s: seq<T>, t: seq<T>, lo: int, hi: int, lo': int, hi': int)
    requires Permuted(s, t, lo, hi) && lo' <= lo && hi <= hi'
    ensures Permuted(s, t, lo', hi')
  {
  }

  function Swapped<T>(s: seq<T>, i: nat, j: nat): seq<T>
    requires i < |s| && j < |s|
  {
    s[i := s[j]][j := s[i]]
  }

  lemma SwapPermutes<T>(s: seq<T>, i: nat, j: nat, lo: int, hi: int)
    requires 0 <= lo <= i <= hi < |s| && lo <= j <= hi
    ensures Permuted(s, Swapped(s, i, j), lo, hi)
  {
  }

  method Swap<T>(a: array<T>, i: nat, j: nat)
    requires i < a.Length && j < a.Length
    modifies a
    ensures a[..] == Swapped(old(a[..]), i, j)
  {
    a[i], a[j] := a[j], a[i];
  }

  lemma SplitInThree<T>(s: seq<T>, lo: nat, hi: nat)
    requires lo <= hi < |s|
    ensures multiset(s) == multiset(s[..lo]) + multiset(s[lo..hi + 1]) + multiset(s[hi + 1..])
  {
    assert s == s[..lo] + s[lo..hi + 1] + s[hi + 1..];
  }

  lemma MiddlePermuted<T>(s: seq<T>, t: seq<T>, lo: nat, hi: nat)
    requires Permuted(s, t, lo, hi) && lo <= hi < |s|
    ensures multiset(s[lo..hi + 1]) == multiset(t[lo..hi + 1])
  {
    SplitInThree(s, lo, hi);
    SplitInThree(t, lo, hi);
    assert s[..lo] == t[..lo] && s[hi + 1..] == t[hi + 1..];
    var outer := multiset(s[..lo]) + multiset(s[hi + 1..]);
    assert multiset(s[lo..hi + 1]) == multiset(s) - outer;
    assert multiset(t[lo..hi + 1]) == multiset(t) - outer;
  }

  /** Every entry of the rearranged part was already in that part. */
  lemma PermutedMember<T>(s: seq<T>, t: seq<T>, lo: nat, hi: nat, i: nat)
    requires Permuted(s, t, lo, hi) && lo <= i <= hi < |s|
    ensures exists j :: lo <= j <= hi && s[j] == t[i]
  {
    MiddlePermuted(s, t, lo, hi);
    hide Permuted;
    var mid, mid' := s[lo..hi + 1], t[lo..hi + 1];
    assert mid'[i - lo] in multiset(mid');
    assert t[i] in mid;
    var j :| 0 <= j < |mid| && mid[j] == t[i];
    assert s[lo + j] == t[i];
  }

  // ----- permutations of 0..n-1 --------------------------------------------

  predicate IsPerm(s: seq<int>) {
    && (forall i :: 0 <= i < |s| ==> 0 <= s[i] < |s|)
    && (forall i, j :: 0 <= i < j < |s| ==> s[i] != s[j])
  }

  /** The entries of the first k places. */
  ghost function Entries(s: seq<int>, k: nat): set<int>
    requires k <= |s|
  {
    set i | 0 <= i < k :: s[i]
  }

  lemma {:induction false} EntriesCount(s: seq<int>, k: nat)
    requires k <= |s| && forall i, j :: 0 <= i < j < k ==> s[i] != s[j]
    ensures |Entries(s, k)| == k
  {
    if k != 0 {
      EntriesCount(s, k - 1);
      var front := Entries(s, k - 1);
      assert s[k - 1] !in front;
      assert Entries(s, k) == front + {s[k - 1]};
    }
  }

  function Below(n: nat): (r: set<int>)
    ensures forall x :: x in r <==> 0 <= x < n
  {
    if n == 0 then {} else Below(n - 1) + {n - 1}
  }

  lemma {:induction false} BelowCount(n: nat)
    ensures |Below(n)| == n
  {
    if n != 0 {
      BelowCount(n - 1);
    }
  }

  lemma SubsetOfSameSize<T>(a: set<T>, b: set<T>)
    requires a <= b && |a| == |b|
    ensures a == b
  {
    if x :| x in b && x !in a {
      assert a <= b - {x};
      SubsetSize(a, b - {x});
    }
  }

  lemma {:induction false} SubsetSize<T>(a: set<T>, b: set<T>)
    requires a <= b
    ensures |a| <= |b|
    decreases a
  {
    if a != {} {
      var x :| x in a;
      SubsetSize(a - {x}, b - {x});
    }
  }

  /** A permutation takes every value. */
  lemma PermOnto(s: seq<int>, k: int)
    requires IsPerm(s) && 0 <= k < |s|
    ensures exists i :: 0 <= i < |s| && s[i] == k
  {
    EntriesCount(s, |s|);
    BelowCount(|s|);
    assert Entries(s, |s|) <= Below(|s|);
    SubsetOfSameSize(Entries(s, |s|), Below(|s|));
    assert k in Entries(s, |s|);
  }

  /** Where the permutation takes the value k. */
  ghost function Where(s: seq<int>, k: int): (i: int)
    requires IsPerm(s) && 0 <= k < |s|
    ensures 0 <= i < |s| && s[i] == k
  {
    PermOnto(s, k);
    var i :| 0 <= i < |s| && s[i] == k;
    i
  }

  lemma OnePlace(s: seq<int>, x: int)
    requires IsPerm(s)
    ensures multiset(s)[x] <= 1
  {
    if x in multiset(s) {
      var i :| 0 <= i < |s| && s[i] == x;
      assert s == s[..i] + [x] + s[i + 1..];
      assert x !in s[..i] && x !in s[i + 1..];
      assert multiset(s) == multiset(s[..i]) + multiset{x} + multiset(s[i + 1..]);
    }
  }

  /** Rearranging a permutation gives a permutation. */
  lemma PermutedIsPerm(s: seq<int>, t: seq<int>)
    requires IsPerm(s) && |s| == |t| && multiset(s) == multiset(t)
    ensures IsPerm(t)
  {
    forall i | 0 <= i < |t| ensures 0 <= t[i] < |t| {
      assert t[i] in multiset(t);
      assert t[i] in s;
    }
    forall i, j | 0 <= i < j < |t| ensures t[i] != t[j] {
      if t[i] == t[j] {
        assert t == t[..i] + [t[i]] + t[i + 1..j] + [t[j]] + t[j + 1..];
        assert multiset(t)[t[i]] >= 2;
        OnePlace(s, t[i]);
        assert false;
      }
    }
  }
}
