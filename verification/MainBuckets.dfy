/** The small buckets of the main sort: rotations by their first two bytes. */
module MainBuckets {
  import opened Permutations
  import opened Rotations
  import opened Radix
  import opened Bwt
  import opened FallbackQSort
  import opened MainSimpleSort

  /** The first two bytes of rotation x. */
  function Key(b: seq<Byte>, x: nat): (k: int)
    requires b != []
    ensures 0 <= k < 65536
  {
    256 * At(b, x) + At(b, x + 1)
  }

  function KeysOf(b: seq<Byte>): (ks: seq<int>)
    ensures |ks| == |b| && forall x :: 0 <= x < |b| ==> ks[x] == Key(b, x)
  {
    seq(|b|, x requires 0 <= x < |b| => Key(b, x))
  }

  /** Where bucket sb begins; it ends where the next one begins. */
  function Begin(b: seq<Byte>, sb: int): (r: nat)
    ensures r <= |b|
  {
    SmallerBound(KeysOf(b), sb, |b|);
    Smaller(KeysOf(b), sb, |b|)
  }

  lemma BeginMonotone(b: seq<Byte>, sb: int, sb': int)
    requires sb <= sb'
    ensures Begin(b, sb) <= Begin(b, sb')
  {
    SmallerMonotone(KeysOf(b), sb, sb', |b|);
  }

  /** The keys of one repeated byte. */
  lemma UniformKey(b: seq<Byte>, x: nat)
    requires Uniform(b)
    ensures Key(b, x) == 257 * (b[0] as int) && Key(b, x) % 256 == b[0]
  {
  }

  lemma UniformEmpty(b: seq<Byte>, sb: int)
    requires Uniform(b) && sb != 257 * (b[0] as int)
    ensures Begin(b, sb + 1) == Begin(b, sb)
  {
    var ks := KeysOf(b);
    SmallerNext(ks, sb, |b|);
    forall x | 0 <= x < |b| ensures ks[x] != sb {
      UniformKey(b, x);
    }
    CountAbsent(ks, sb, |b|);
  }

  /** Where the big bucket of c begins. */
  lemma {:induction false} BigBegin(b: seq<Byte>, c: int, i: nat)
    requires i <= |b|
    ensures Smaller(KeysOf(b), 256 * c, i) == Smaller(b, c, i)
  {
    if i > 0 {
      BigBegin(b, c, i - 1);
      assert At(b, i - 1) == b[i - 1];
    }
  }

  /** It has one place for every c in the block. */
  lemma BigSize(b: seq<Byte>, c: int)
    ensures Begin(b, 256 * c + 256) - Begin(b, 256 * c) == Count(b, c, |b|)
  {
    BigBegin(b, c, |b|);
    BigBegin(b, c + 1, |b|);
    SmallerNext(b, c, |b|);
  }

  // ----- keys and the order of rotations -----------------------------------

  lemma KeyOrder(b: seq<Byte>, rank: seq<int>, x: nat, y: nat)
    requires Ranked(b, rank) && x < |b| && y < |b|
    ensures Key(b, x) < Key(b, y) ==> rank[x] < rank[y]
    ensures Key(b, x) == Key(b, y) ==> Same(b, x, y, 2)
  {
    Split(b, x, y, 1, 1);
    Split(b, x, y, 2, |b|);
    WholeOrder(b, x, y, 2 + |b|);
    assert Less(b, x, y, 1) <==> At(b, x) < At(b, y);
    assert Less(b, x + 1, y + 1, 1) <==> At(b, x + 1) < At(b, y + 1);
    assert Same(b, x, y, 1) <==> At(b, x) == At(b, y);
    assert Same(b, x + 1, y + 1, 1) <==> At(b, x + 1) == At(b, y + 1);
  }

  /** Rotations that begin alike are in the order of what follows. */
  lemma PrevOrder(b: seq<Byte>, rank: seq<int>, x: nat, y: nat)
    requires Ranked(b, rank) && x < |b| && y < |b| && rank[x] <= rank[y] && b[Prev(|b|, x)] == b[Prev(|b|, y)]
    ensures rank[Prev(|b|, x)] <= rank[Prev(|b|, y)]
  {
    var n := |b|;
    FirstByteThenRest(b, y, x);
    if Less(b, Prev(n, y), Prev(n, x), n) {
      LessLonger(b, y, x, n - 1, n);
      assert false;
    }
  }

  // ----- what a bucket holds -----------------------------------------------

  /** Every entry of a placed order lies in the bucket of its key. */
  lemma PlacedKey(b: seq<Byte>, p: seq<int>, j: nat, sb: int)
    requires Placed(KeysOf(b), p) && j < |b| && Begin(b, sb) <= j < Begin(b, sb + 1)
    ensures 0 <= p[j] < |b| && Key(b, p[j]) == sb
  {
    var k := Key(b, p[j]);
    if k < sb {
      BeginMonotone(b, k + 1, sb);
    } else if sb < k {
      BeginMonotone(b, sb + 1, k);
    }
  }

  /** Every rotation is somewhere in its bucket. */
  lemma InBucket(b: seq<Byte>, p: seq<int>, x: nat) returns (j: nat)
    requires Placed(KeysOf(b), p) && x < |b|
    ensures j < |b| && p[j] == x && Begin(b, Key(b, x)) <= j < Begin(b, Key(b, x) + 1)
  {
    j := Where(p, x);
  }

  /** Bucket sb is in order. */
  ghost predicate BucketSorted(b: seq<Byte>, rank: seq<int>, p: seq<int>, sb: int) {
    && |p| == |b| && InRange(p, |rank|)
    && SortedRange(rank, p, Begin(b, sb), Begin(b, sb + 1) - 1)
  }

  /** All buckets in order: the rotations are in order. */
  lemma BucketsSorted(b: seq<Byte>, rank: seq<int>, p: seq<int>)
    requires Ranked(b, rank) && Placed(KeysOf(b), p) && forall sb :: 0 <= sb < 65536 ==> BucketSorted(b, rank, p, sb)
    ensures SortedRotations(b, p)
  {
    forall i, j | 0 <= i < j < |b| ensures !RotLess(b, p[j], p[i]) {
      PlacesInOrder(b, rank, p, i, j);
    }
  }

  lemma PlacesInOrder(b: seq<Byte>, rank: seq<int>, p: seq<int>, i: nat, j: nat)
    requires Ranked(b, rank) && Placed(KeysOf(b), p) && i < j < |b|
    requires forall sb :: 0 <= sb < 65536 ==> BucketSorted(b, rank, p, sb)
    ensures rank[p[i]] <= rank[p[j]]
  {
    var k, m := Key(b, p[i]), Key(b, p[j]);
    assert Begin(b, k) <= i < Begin(b, k + 1) && Begin(b, m) <= j < Begin(b, m + 1);
    if m < k {
      BeginMonotone(b, m + 1, k);
    } else if k == m {
      assert BucketSorted(b, rank, p, k);
      assert Ord(rank, p, i, j);
    } else {
      KeyOrder(b, rank, p[i], p[j]);
    }
  }

  // ----- how many rotations a bucket has -----------------------------------

  /** Distinct rotations with the same key are no more than the bucket holds. */
  lemma NoMoreThanBucket(b: seq<Byte>, s: seq<int>, sb: int)
    requires (forall k :: 0 <= k < |s| ==> 0 <= s[k] < |b| && Key(b, s[k]) == sb)
      && forall k, m :: 0 <= k < m < |s| ==> s[k] != s[m]
    ensures |s| <= Begin(b, sb + 1) - Begin(b, sb)
    ensures |s| == Begin(b, sb + 1) - Begin(b, sb) ==> forall x :: 0 <= x < |b| && Key(b, x) == sb ==> x in s
  {
    var ks := KeysOf(b);
    var all := WithKey(ks, sb, |b|);
    SmallerNext(ks, sb, |b|);
    EntriesCount(s, |s|);
    var e := Entries(s, |s|);
    assert e <= all;
    SubsetSize(e, all);
    if |s| == Begin(b, sb + 1) - Begin(b, sb) {
      SubsetOfSameSize(e, all);
    }
  }

  /** Conversely, if all of them are there, there are that many. */
  lemma AllOfBucket(b: seq<Byte>, s: seq<int>, sb: int)
    requires (forall k :: 0 <= k < |s| ==> 0 <= s[k] < |b| && Key(b, s[k]) == sb)
      && forall k, m :: 0 <= k < m < |s| ==> s[k] != s[m]
    requires forall x :: 0 <= x < |b| && Key(b, x) == sb ==> x in s
    ensures |s| == Begin(b, sb + 1) - Begin(b, sb)
  {
    var ks := KeysOf(b);
    SmallerNext(ks, sb, |b|);
    EntriesCount(s, |s|);
    var e, all := Entries(s, |s|), WithKey(ks, sb, |b|);
    forall x | x in all ensures x in e {
      var k :| 0 <= k < |s| && s[k] == x;
    }
    assert e == all;
  }
}
