/** How often a block repeats itself, and what that means for a sorted bucket:
    equal rotations come in groups of that size. */
module MainRepeats {
  import opened Arithmetic
  import opened Permutations
  import opened Rotations
  import opened Radix
  import opened Bwt

  /** The rotations equal to rotation x. */
  ghost function Equals(b: seq<Byte>, x: nat): (r: set<int>)
    requires b != []
    ensures forall y :: y in r <==> 0 <= y < |b| && Same(b, x, y, |b|)
  {
    set y | y in Below(|b|) && Same(b, x, y, |b|)
  }

  /** How many rotations are equal to the block itself. */
  ghost function Repeats(b: seq<Byte>): nat
    requires b != []
  {
    |Equals(b, 0)|
  }

  lemma {:induction false} SameShifted(b: seq<Byte>, i: nat, j: nat, k: nat)
    requires b != [] && Same(b, i, j, |b|)
    ensures Same(b, i + k, j + k, |b|)
  {
    if k > 0 {
      SameShifted(b, i, j, k - 1);
      SameStep(b, i + k - 1, j + k - 1);
    }
  }

  lemma {:induction false} ShiftSize(n: nat, from: set<int>, to: set<int>, k: nat)
    requires n > 0 && k <= n && forall y :: y in from ==> 0 <= y < n && Wrap(n, y + k) in to
    ensures |from| <= |to|
    decreases from
  {
    if from != {} {
      var x :| x in from;
      var z := Wrap(n, x + k);
      forall y | y in from - {x} ensures Wrap(n, y + k) in to - {z} {
        ShiftApart(n, x, y, k);
      }
      ShiftSize(n, from - {x}, to - {z}, k);
    }
  }

  lemma ShiftApart(n: nat, x: nat, y: nat, k: nat)
    requires x < n && y < n && x != y && k <= n
    ensures Wrap(n, x + k) != Wrap(n, y + k)
  {
    OnceAround(n, x + k);
    OnceAround(n, y + k);
  }

  lemma OnceAround(n: nat, i: nat)
    requires 0 < n && i < 2 * n
    ensures Wrap(n, i) == if i < n then i else i - n
  {
  }

  lemma EqualsFewer(b: seq<Byte>, x: nat, z: nat, k: nat)
    requires x < |b| && z < |b| && k <= |b| && z == Wrap(|b|, x + k)
    ensures |Equals(b, x)| <= |Equals(b, z)|
  {
    hide Same, Wrap;
    forall y | y in Equals(b, x) ensures Wrap(|b|, y + k) in Equals(b, z) {
      SameShifted(b, x, y, k);
      Around(b, x + k, y + k, |b|);
    }
    ShiftSize(|b|, Equals(b, x), Equals(b, z), k);
  }

  /** Every rotation has as many equals. */
  lemma EquallyMany(b: seq<Byte>, x: nat)
    requires x < |b|
    ensures |Equals(b, x)| == Repeats(b) > 0
  {
    EqualsFewer(b, 0, x, x);
    EqualsFewer(b, x, 0, |b| - x);
    Trichotomy(b, 0, 0, |b|);
    SameSelf(b, 0);
  }

  lemma SameSelf(b: seq<Byte>, x: nat)
    requires x < |b|
    ensures x in Equals(b, x)
  {
    Trichotomy(b, x, x, |b|);
  }

  /** A block that differs from its other rotations does not repeat. */
  lemma RepeatsOnce(b: seq<Byte>)
    requires b != []
    ensures Repeats(b) == 1 <==> Primitive(b)
  {
    SameSelf(b, 0);
    if Primitive(b) {
      assert Equals(b, 0) == {0};
    } else {
      var x :| 0 < x < |b| && Same(b, 0, x, |b|);
      SubsetSize({0, x}, Equals(b, 0));
    }
  }

  // ----- groups in a sorted bucket -----------------------------------------

  /** The bucket lists exactly the rotations that begin with ss, in order. */
  ghost predicate SortedBucket(b: seq<Byte>, bucket: seq<int>, ss: Byte) {
    && b != []
    && (forall j :: 0 <= j < |bucket| ==> 0 <= bucket[j] < |b| && b[bucket[j]] == ss)
    && (forall j, k :: 0 <= j < k < |bucket| ==> bucket[j] != bucket[k] && !RotLess(b, bucket[k], bucket[j]))
    && (forall x :: 0 <= x < |b| && b[x] == ss ==> x in bucket)
  }

  /** It has one place for every such byte. */
  lemma BucketSize(b: seq<Byte>, bucket: seq<int>, ss: Byte)
    requires SortedBucket(b, bucket, ss)
    ensures |bucket| == Count(b, ss, |b|)
  {
    hide RotLess;
    EntriesCount(bucket, |bucket|);
    var e, all := Entries(bucket, |bucket|), WithKey(b, ss, |b|);
    forall x | x in all ensures x in e {
      var k :| 0 <= k < |bucket| && bucket[k] == x;
    }
    assert e == all;
  }

  /** A rotation different from the one before it comes at place j. */
  ghost predicate Starts(b: seq<Byte>, bucket: seq<int>, j: nat)
    requires b != [] && j < |bucket| && forall k :: 0 <= k < |bucket| ==> bucket[k] >= 0
  {
    j == 0 || !Same(b, bucket[j - 1], bucket[j], |b|)
  }

  lemma BucketRange(b: seq<Byte>, bucket: seq<int>, ss: Byte)
    requires SortedBucket(b, bucket, ss)
    ensures b != [] && (forall k :: 0 <= k < |bucket| ==> 0 <= bucket[k] < |b|)
      && forall j, k :: 0 <= j < k < |bucket| ==> bucket[j] != bucket[k]
  {
  }

  /** What lies between two equal rotations is equal to them. */
  lemma Between(b: seq<Byte>, bucket: seq<int>, ss: Byte, a: nat, m: nat, c: nat)
    requires SortedBucket(b, bucket, ss) && a <= m <= c < |bucket| && Same(b, bucket[a], bucket[c], |b|)
    ensures Same(b, bucket[a], bucket[m], |b|) && Same(b, bucket[m], bucket[c], |b|)
  {
    Trichotomy(b, bucket[a], bucket[a], |b|);
    Trichotomy(b, bucket[c], bucket[c], |b|);
    Transitivity(b, bucket[a], bucket[m], bucket[c], |b|);
  }

  lemma NotAcross(b: seq<Byte>, bucket: seq<int>, ss: Byte, a: nat, m: nat, c: nat)
    requires SortedBucket(b, bucket, ss) && a < m <= c < |bucket| && Same(b, bucket[a], bucket[c], |b|)
    ensures !Starts(b, bucket, m)
  {
    hide Same, RotLess;
    Between(b, bucket, ss, a, m - 1, c);
    Between(b, bucket, ss, m - 1, m, c);
  }

  /** Equal rotations begin alike. */
  lemma SameBucket(b: seq<Byte>, bucket: seq<int>, ss: Byte, s: nat, y: nat)
    requires SortedBucket(b, bucket, ss) && s < |bucket| && y < |b| && Same(b, bucket[s], y, |b|)
    ensures y in bucket
  {
    SameAt(b, bucket[s], y, |b|, 0);
    assert At(b, bucket[s]) == ss;
  }

  /** From the first of a group on, exactly Repeats(b) rotations are equal. */
  lemma GroupSize(b: seq<Byte>, bucket: seq<int>, ss: Byte, s: nat, e: nat)
    requires SortedBucket(b, bucket, ss) && s < e <= |bucket| && Starts(b, bucket, s)
    requires (forall a :: s <= a < e ==> Same(b, bucket[s], bucket[a], |b|))
      && (e < |bucket| ==> !Same(b, bucket[s], bucket[e], |b|))
    ensures e - s == Repeats(b)
  {
    hide Same, RotLess, SortedBucket, Starts, Repeats;
    BucketRange(b, bucket, ss);
    var group := bucket[s..e];
    EntriesCount(group, e - s);
    var all := Equals(b, bucket[s]);
    forall y | y in all ensures y in Entries(group, e - s) {
      var a := InGroup(b, bucket, ss, s, e, y);
      assert group[a - s] == y;
    }
    assert Entries(group, e - s) == all;
    EquallyMany(b, bucket[s]);
  }

  lemma InGroup(b: seq<Byte>, bucket: seq<int>, ss: Byte, s: nat, e: nat, y: nat) returns (a: nat)
    requires SortedBucket(b, bucket, ss) && s < e <= |bucket| && Starts(b, bucket, s)
      && (e < |bucket| ==> !Same(b, bucket[s], bucket[e], |b|))
    requires y < |b| && Same(b, bucket[s], y, |b|)
    ensures s <= a < e && bucket[a] == y
  {
    hide Same, RotLess;
    SameBucket(b, bucket, ss, s, y);
    a :| 0 <= a < |bucket| && bucket[a] == y;
    if a < s {
      SameBack(b, bucket[s], y);
      NotAcross(b, bucket, ss, a, s, s);
    } else if e <= a {
      Between(b, bucket, ss, s, e, a);
    }
  }

  lemma SameBack(b: seq<Byte>, x: nat, y: nat)
    requires b != [] && Same(b, x, y, |b|)
    ensures Same(b, y, x, |b|)
  {
    Trichotomy(b, x, y, |b|);
  }

  lemma GroupEnd(b: seq<Byte>, bucket: seq<int>, ss: Byte, s: nat) returns (e: nat)
    requires SortedBucket(b, bucket, ss) && s < |bucket| && Starts(b, bucket, s)
    ensures s < e <= |bucket| && e == s + Repeats(b) && (e < |bucket| ==> Starts(b, bucket, e))
    ensures forall m :: s < m < e ==> !Starts(b, bucket, m)
  {
    hide Same, RotLess;
    BucketRange(b, bucket, ss);
    e := s + 1;
    Trichotomy(b, bucket[s], bucket[s], |b|);
    SameSelf(b, bucket[s]);
    while e < |bucket| && Same(b, bucket[s], bucket[e], |b|)
      invariant s < e <= |bucket| && forall a :: s <= a < e ==> Same(b, bucket[s], bucket[a], |b|)
    {
      e := e + 1;
    }
    GroupSize(b, bucket, ss, s, e);
    forall m | s < m < e ensures !Starts(b, bucket, m) {
      NotAcross(b, bucket, ss, s, m, m);
    }
    if e < |bucket| && !Starts(b, bucket, e) {
      SameChain(b, bucket[s], bucket[e - 1], bucket[e]);
    }
  }

  lemma SameChain(b: seq<Byte>, x: nat, y: nat, z: nat)
    requires b != [] && Same(b, x, y, |b|) && Same(b, y, z, |b|)
    ensures Same(b, x, z, |b|)
  {
    Trichotomy(b, x, y, |b|);
    Trichotomy(b, y, z, |b|);
    Transitivity(b, x, y, z, |b|);
  }

  lemma Remainder(k: nat, q: nat, r: nat)
    requires r < k
    ensures (k * q + r) % k == r && (k * q + r) / k == q
  {
    var x := k * q + r;
    var d := x / k;
    assert x == k * d + x % k;
    if d < q {
      MulMonotone(k, d + 1, q);
    } else if q < d {
      MulMonotone(k, q + 1, d);
    }
  }

  lemma MultipleNext(k: nat, s: nat, j: nat)
    requires k > 0 && s % k == 0 && s <= j <= s + k
    ensures j % k == 0 <==> j == s || j == s + k
  {
    var q := s / k;
    assert s == k * q;
    if j < s + k {
      Remainder(k, q, j - s);
    } else {
      assert k * (q + 1) == k * q + k;
      Remainder(k, q + 1, 0);
    }
  }

  /** Groups begin exactly at the multiples of Repeats(b). */
  lemma {:induction false} GroupsFrom(b: seq<Byte>, bucket: seq<int>, ss: Byte, s: nat)
    requires SortedBucket(b, bucket, ss) && Repeats(b) > 0 && s % Repeats(b) == 0
      && (s < |bucket| ==> Starts(b, bucket, s))
    ensures forall j :: s <= j < |bucket| ==> (Starts(b, bucket, j) <==> j % Repeats(b) == 0)
    decreases |bucket| - s
  {
    hide Same, RotLess, Starts, Repeats;
    if s < |bucket| {
      var k := Repeats(b);
      var e := GroupEnd(b, bucket, ss, s);
      MultipleNext(k, s, e);
      GroupsFrom(b, bucket, ss, e);
      forall j | s <= j < |bucket| ensures Starts(b, bucket, j) <==> j % k == 0 {
        if j < e {
          MultipleNext(k, s, j);
        }
      }
    }
  }

  lemma GroupStart(b: seq<Byte>, bucket: seq<int>, ss: Byte, j: nat)
    requires SortedBucket(b, bucket, ss) && j < |bucket|
    ensures Repeats(b) > 0 && (Starts(b, bucket, j) <==> j % Repeats(b) == 0)
  {
    hide Same, RotLess, Starts;
    BucketRange(b, bucket, ss);
    FirstStarts(b, bucket);
    EquallyMany(b, bucket[0]);
    GroupsFrom(b, bucket, ss, 0);
  }

  lemma FirstStarts(b: seq<Byte>, bucket: seq<int>)
    requires b != [] && bucket != [] && forall k :: 0 <= k < |bucket| ==> bucket[k] >= 0
    ensures Starts(b, bucket, 0)
  {
  }

  /** A bucket that is not empty has a whole group. */
  lemma BucketNotLess(b: seq<Byte>, bucket: seq<int>, ss: Byte)
    requires SortedBucket(b, bucket, ss) && bucket != []
    ensures 0 < Repeats(b) <= |bucket|
  {
    EquallyMany(b, bucket[0]);
    var e := GroupEnd(b, bucket, ss, 0);
  }
}
