/** Keeping the quadrants: after a big bucket is sorted, the place of every
    rotation in it is cached, scaled down to sixteen bits. */
module MainQuadrants {
  import opened Arithmetic
  import opened Sizes
  import opened Rotations
  import opened Radix
  import opened Bwt
  import opened MainCompare
  import opened MainRepeats

  /** The quadrants of the bucket from j on are set, all others as before. */
  ghost predicate SetFrom(was: seq<int>, now: seq<int>, bucket: seq<int>, j: nat, scale: nat, n: nat)
    requires scale > 0
  {
    && n <= |was| == |now| && j <= |bucket| && (forall k :: 0 <= k < |bucket| ==> 0 <= bucket[k] < n)
    && (forall k :: j <= k < |bucket| ==> now[bucket[k]] == k / scale)
    && (forall x :: 0 <= x < n && x !in bucket[j..] ==> now[x] == was[x])
  }

  lemma SetOne(was: seq<int>, now: seq<int>, next: seq<int>, bucket: seq<int>, j: nat, scale: nat, n: nat)
    requires scale > 0 && j < |bucket| && SetFrom(was, now, bucket, j + 1, scale, n)
    requires forall i, k :: 0 <= i < k < |bucket| ==> bucket[i] != bucket[k]
    requires |next| == |now| && next[bucket[j]] == j / scale
      && forall x :: 0 <= x < n && x != bucket[j] ==> next[x] == now[x]
    ensures SetFrom(was, next, bucket, j, scale, n)
  {
    assert bucket[j..] == [bucket[j]] + bucket[j + 1..];
  }

  lemma ScaledOrder(a: nat, c: nat, scale: nat)
    requires scale > 0 && a / scale < c / scale
    ensures a < c
  {
    if c <= a {
      DivMonotone(c, a, scale);
    }
  }

  lemma DivMonotone(a: nat, c: nat, scale: nat)
    requires scale > 0 && a <= c
    ensures a / scale <= c / scale
  {
    var q, r := a / scale, a % scale;
    var q', r' := c / scale, c % scale;
    assert a == scale * q + r && c == scale * q' + r';
    if q' < q {
      Product(scale, q' + 1, q);
    }
  }

  lemma Product(s: nat, a: nat, c: nat)
    requires a <= c
    ensures s * a <= s * c
  {
  }

  /** With the whole bucket set, the quadrants still contradict no order. */
  lemma BucketKeepsOrder(b: seq<Byte>, was: seq<int>, now: seq<int>, bucket: seq<int>, scale: nat, ss: Byte)
    requires scale > 0 && SortedBucket(b, bucket, ss) && NotAgainst(b, was) && SetFrom(was, now, bucket, 0, scale, |b|)
    ensures NotAgainst(b, now)
  {
    assert bucket[0..] == bucket;
    forall i, j | 0 <= i < |b| && 0 <= j < |b| && b[i] == b[j] && now[i] < now[j] ensures !RotLess(b, j, i) {
      if b[i] == ss {
        var a :| 0 <= a < |bucket| && bucket[a] == i;
        var c :| 0 <= c < |bucket| && bucket[c] == j;
        ScaledOrder(a, c, scale);
      } else {
        assert i !in bucket && j !in bucket;
      }
    }
  }

  // ----- when the documented meaning holds ---------------------------------

  /** Equal rotations that begin with c have equal quadrants. */
  ghost predicate Level(b: seq<Byte>, quadrant: seq<int>, c: Byte) {
    b != [] && |b| <= |quadrant|
      && forall x, y :: 0 <= x < |b| && 0 <= y < |b| && b[x] == c && Same(b, x, y, |b|) ==> quadrant[x] == quadrant[y]
  }

  /** The documented meaning holds exactly when equal rotations are never given
      different quadrants. */
  lemma DecidedIff(b: seq<Byte>, quadrant: seq<int>)
    requires b != [] && NotAgainst(b, quadrant)
    ensures Decided(b, quadrant) <==> forall c: Byte :: Level(b, quadrant, c)
  {
    if Decided(b, quadrant) {
      forall c: Byte ensures Level(b, quadrant, c) {
        DecidedLevel(b, quadrant, c);
      }
    }
    if forall c: Byte :: Level(b, quadrant, c) {
      forall i, j | 0 <= i < |b| && 0 <= j < |b| && b[i] == b[j] && quadrant[i] < quadrant[j] ensures RotLess(b, i, j) {
        assert Level(b, quadrant, b[i]);
        Trichotomy(b, i, j, |b|);
      }
    }
  }

  lemma DecidedLevel(b: seq<Byte>, quadrant: seq<int>, c: Byte)
    requires b != [] && Decided(b, quadrant)
    ensures Level(b, quadrant, c)
  {
    forall x, y | 0 <= x < |b| && 0 <= y < |b| && b[x] == c && Same(b, x, y, |b|) ensures quadrant[x] == quadrant[y] {
      Trichotomy(b, x, y, |b|);
      SameAt(b, x, y, |b|, 0);
      assert At(b, x) == b[x] && At(b, y) == b[y];
    }
  }

  /** How often a size is halved until it fits sixteen bits. */
  function Halvings(size: nat): nat {
    if size <= 65534 then 0 else 1 + Halvings(size / 2)
  }

  /** By how much the places in a bucket of this size are scaled down. */
  function Scale(size: nat): nat {
    Pow2(Halvings(size))
  }

  lemma {:induction false} ScaleBelow(size: nat)
    ensures Scale(size) == 1 || (size > 65534 && Scale(size) < size)
  {
    if size > 65534 {
      ScaleBelow(size / 2);
    }
  }

  /** Caching the bucket of c keeps the documented meaning: it is empty, or its
      places are scaled down by a multiple of the number of equal rotations. */
  ghost predicate Steady(b: seq<Byte>, c: Byte)
    requires b != []
  {
    var size := Count(b, c, |b|);
    size == 0 || (Repeats(b) > 0 && Scale(size) % Repeats(b) == 0)
  }

  /** Up to 65534 places that takes a block without equal rotations. */
  lemma SmallSteady(b: seq<Byte>, c: Byte)
    requires b != [] && Count(b, c, |b|) <= 65534
    ensures Steady(b, c) <==> Count(b, c, |b|) == 0 || Primitive(b)
  {
    RepeatsOnce(b);
    EquallyMany(b, 0);
    OneModulo(Repeats(b));
  }

  lemma OneModulo(k: nat)
    requires k > 0
    ensures 1 % k == 0 <==> k == 1
  {
  }

  /** And that is enough whatever the size. */
  lemma PrimitiveSteady(b: seq<Byte>, c: Byte)
    requires Primitive(b)
    ensures Steady(b, c)
  {
    RepeatsOnce(b);
  }

  lemma SetPlace(was: seq<int>, now: seq<int>, bucket: seq<int>, scale: nat, n: nat, a: nat)
    requires scale > 0 && SetFrom(was, now, bucket, 0, scale, n) && a < |bucket|
    ensures 0 <= bucket[a] < n <= |now| && now[bucket[a]] == a / scale
  {
  }

  lemma MultipleBetween(a: nat, c: nat, scale: nat) returns (m: nat)
    requires scale > 0 && a < c && a / scale != c / scale
    ensures a < m <= c && m % scale == 0
  {
    DivMonotone(a, c, scale);
    var q := c / scale;
    m := scale * q;
    assert c == scale * q + c % scale;
    Remainder(scale, q, 0);
    assert a == scale * (a / scale) + a % scale;
    Product(scale, a / scale + 1, q);
  }

  lemma MultipleOf(m: nat, s: nat, k: nat)
    requires k > 0 && s > 0 && m % s == 0 && s % k == 0
    ensures m % k == 0
  {
    var q, r := m / s, s / k;
    assert m == s * q && s == k * r;
    MulAssoc(k, r, q);
    Remainder(k, r * q, 0);
  }

  /** Two equal rotations in the bucket get the same quadrant if no multiple of
      the scale lies between them. */
  lemma EqualPlaces(b: seq<Byte>, bucket: seq<int>, ss: Byte, scale: nat, a: nat, c: nat)
    requires SortedBucket(b, bucket, ss) && a < c < |bucket| && Same(b, bucket[a], bucket[c], |b|)
    requires scale > 0 && Repeats(b) > 0 && scale % Repeats(b) == 0
    ensures a / scale == c / scale
  {
    hide *;
    BucketRange(b, bucket, ss);
    var k := Repeats(b);
    forall m: nat | a < m <= c ensures m % k != 0 {
      NoneBetween(b, bucket, ss, a, m, c);
    }
    NotStraddled(a, c, scale, k);
  }

  lemma NotStraddled(a: nat, c: nat, scale: nat, k: nat)
    requires scale > 0 && k > 0 && scale % k == 0 && a < c && forall m: nat :: a < m <= c ==> m % k != 0
    ensures a / scale == c / scale
  {
    if a / scale != c / scale {
      var m := MultipleBetween(a, c, scale);
      MultipleOf(m, scale, k);
    }
  }

  lemma NoneBetween(b: seq<Byte>, bucket: seq<int>, ss: Byte, a: nat, m: nat, c: nat)
    requires SortedBucket(b, bucket, ss) && a < m <= c < |bucket| && Same(b, bucket[a], bucket[c], |b|)
    ensures Repeats(b) > 0 && m % Repeats(b) != 0
  {
    hide Same, RotLess, Repeats, SortedBucket, Starts;
    BucketRange(b, bucket, ss);
    GroupStart(b, bucket, ss, m);
    NotAcross(b, bucket, ss, a, m, c);
  }

  lemma LevelIfSteady(b: seq<Byte>, was: seq<int>, now: seq<int>, bucket: seq<int>, scale: nat, ss: Byte)
    requires scale > 0 && SortedBucket(b, bucket, ss) && SetFrom(was, now, bucket, 0, scale, |b|)
    requires bucket == [] || (Repeats(b) > 0 && scale % Repeats(b) == 0)
    ensures Level(b, now, ss)
  {
    hide RotLess, Repeats, SetFrom;
    SetLength(was, now, bucket, 0, scale, |b|);
    forall x, y | 0 <= x < |b| && 0 <= y < |b| && b[x] == ss && Same(b, x, y, |b|) ensures now[x] == now[y] {
      SameFirst(b, x, y);
      var a :| 0 <= a < |bucket| && bucket[a] == x;
      var c :| 0 <= c < |bucket| && bucket[c] == y;
      SetPlace(was, now, bucket, scale, |b|, a);
      SetPlace(was, now, bucket, scale, |b|, c);
      if a < c {
        EqualPlaces(b, bucket, ss, scale, a, c);
      } else if c < a {
        SameBack(b, x, y);
        EqualPlaces(b, bucket, ss, scale, c, a);
      }
    }
  }

  lemma SetLength(was: seq<int>, now: seq<int>, bucket: seq<int>, j: nat, scale: nat, n: nat)
    requires scale > 0 && SetFrom(was, now, bucket, j, scale, n)
    ensures n <= |was| == |now|
  {
  }

  lemma SameFirst(b: seq<Byte>, x: nat, y: nat)
    requires x < |b| && y < |b| && Same(b, x, y, |b|)
    ensures b[x] == b[y]
  {
    SameAt(b, x, y, |b|, 0);
    assert At(b, x) == b[x] && At(b, y) == b[y];
  }

  /** Otherwise a group of equal rotations lies across place `scale`. */
  lemma SteadyIfLevel(b: seq<Byte>, was: seq<int>, now: seq<int>, bucket: seq<int>, scale: nat, ss: Byte)
    requires scale > 0 && SortedBucket(b, bucket, ss) && SetFrom(was, now, bucket, 0, scale, |b|) && Level(b, now, ss)
    requires bucket != [] && (scale == 1 || scale < |bucket|)
    ensures Repeats(b) > 0 && scale % Repeats(b) == 0
  {
    hide RotLess, Repeats, SetFrom, Same;
    BucketNotLess(b, bucket, ss);
    if scale % Repeats(b) != 0 {
      Remainder(scale, 0, scale - 1);
      Remainder(scale, 1, 0);
      assert scale * 0 + (scale - 1) == scale - 1 && scale * 1 + 0 == scale;
      OneModulo(Repeats(b));
      SetPlace(was, now, bucket, scale, |b|, scale - 1);
      SetPlace(was, now, bucket, scale, |b|, scale);
      GroupStart(b, bucket, ss, scale);
    }
  }

  /** After the update, the meaning holds for the bucket exactly if it is
      steady, and is as before elsewhere. */
  lemma LevelAfter(b: seq<Byte>, was: seq<int>, now: seq<int>, bucket: seq<int>, scale: nat, ss: Byte)
    requires scale > 0 && SortedBucket(b, bucket, ss) && SetFrom(was, now, bucket, 0, scale, |b|)
      && scale == Scale(|bucket|)
    ensures b != [] && (Level(b, now, ss) <==> Steady(b, ss))
    ensures forall c: Byte :: c != ss ==> (Level(b, now, c) <==> Level(b, was, c))
  {
    BucketSize(b, bucket, ss);
    ScaleBelow(|bucket|);
    OthersLevel(b, was, now, bucket, scale, ss);
    hide Same, RotLess, Repeats, SetFrom, SortedBucket, Scale, Level;
    if Steady(b, ss) {
      LevelIfSteady(b, was, now, bucket, scale, ss);
    }
    if Level(b, now, ss) && bucket != [] {
      SteadyIfLevel(b, was, now, bucket, scale, ss);
    }
  }

  lemma OthersLevel(b: seq<Byte>, was: seq<int>, now: seq<int>, bucket: seq<int>, scale: nat, ss: Byte)
    requires scale > 0 && SortedBucket(b, bucket, ss) && SetFrom(was, now, bucket, 0, scale, |b|)
    ensures forall c: Byte :: c != ss ==> (Level(b, now, c) <==> Level(b, was, c))
  {
    hide Same, RotLess;
    forall x | 0 <= x < |b| && b[x] != ss ensures now[x] == was[x] {
      assert bucket[0..] == bucket;
      assert x !in bucket;
    }
    forall x, y | 0 <= x < |b| && 0 <= y < |b| && Same(b, x, y, |b|) ensures b[x] == b[y] {
      SameFirst(b, x, y);
    }
  }

  /** quadrant[a] = q, and in the overshoot area */
  method SetQuadrant(quadrant: array<int>, n: nat, a: nat, q: int)
    requires BZ_N_OVERSHOOT <= n && quadrant.Length == n + BZ_N_OVERSHOOT && a < n
      && QuadrantsContinued(quadrant[..], n)
    modifies quadrant
    ensures QuadrantsContinued(quadrant[..], n) && quadrant[a] == q
    ensures forall x :: 0 <= x < n && x != a ==> quadrant[x] == old(quadrant[x])
  {
    ghost var was := quadrant[..];
    quadrant[a] := q;
    if a < BZ_N_OVERSHOOT {
      quadrant[a + n] := q;
    }
    forall i | 0 <= i < quadrant.Length ensures quadrant[i] == quadrant[Wrap(n, i)] {
      assert was[i] == was[Wrap(n, i)];
      assert Wrap(n, i) == if i < n then i else i - n;
    }
  }

  /** size >> shifts */
  function ShiftedDown(size: nat, shifts: nat): int {
    size / Pow2(shifts)
  }

  /** How far places have to be scaled down to fit sixteen bits. */
  method Shifts(bbSize: nat) returns (shifts: nat)
    ensures Pow2(shifts) == Scale(bbSize) && bbSize / Pow2(shifts) <= 65534
  {
    ShiftStart(bbSize);
    hide Halvings, ShiftedDown;
    shifts := 0;
    while ShiftedDown(bbSize, shifts) > 65534
      invariant ShiftedDown(bbSize, shifts) >= 0 && shifts + Halvings(ShiftedDown(bbSize, shifts)) == Halvings(bbSize)
      decreases ShiftedDown(bbSize, shifts)
    {
      ShiftOnce(bbSize, shifts);
      shifts := shifts + 1;
    }
    ShiftEnd(bbSize, shifts);
  }

  lemma ShiftStart(size: nat)
    ensures ShiftedDown(size, 0) == size
  {
  }

  lemma ShiftOnce(size: nat, shifts: nat)
    requires ShiftedDown(size, shifts) > 65534
    ensures var z := shifts + 1;
      && 0 <= ShiftedDown(size, z) < ShiftedDown(size, shifts)
      && Halvings(ShiftedDown(size, shifts)) == 1 + Halvings(ShiftedDown(size, z))
  {
    HalvesOnce(size, Pow2(shifts));
  }

  lemma ShiftEnd(size: nat, shifts: nat)
    requires 0 <= ShiftedDown(size, shifts) <= 65534 && shifts + Halvings(ShiftedDown(size, shifts)) == Halvings(size)
    ensures shifts == Halvings(size) && size / Pow2(shifts) <= 65534
  {
  }

  lemma HalvesOnce(a: nat, p: nat)
    requires p > 0
    ensures a / (2 * p) == a / p / 2
  {
    var q := a / p;
    var h := q / 2;
    assert a == p * q + a % p && q == 2 * h + q % 2;
    assert p * q == (2 * p) * h + p * (q % 2);
    assert p * (q % 2) <= p;
    Remainder(2 * p, h, p * (q % 2) + a % p);
  }

  /** Step 3 of the main sort, for a bucket that is sorted. */
  method UpdateQuadrants(ptr: array<int>, quadrant: array<int>, n: nat, bbStart: nat, bbSize: nat, ghost b: seq<Byte>,
      ghost ss: Byte)
    requires ptr != quadrant && BZ_N_OVERSHOOT <= n == |b| && quadrant.Length == n + BZ_N_OVERSHOOT
      && bbStart + bbSize <= ptr.Length
    requires QuadrantsContinued(quadrant[..], n) && NotAgainst(b, quadrant[..])
      && SortedBucket(b, ptr[bbStart..bbStart + bbSize], ss)
    modifies quadrant
    ensures QuadrantsContinued(quadrant[..], n) && NotAgainst(b, quadrant[..])
    ensures forall m :: bbStart <= m < bbStart + bbSize ==> 0 <= ptr[m] < n && 0 <= quadrant[ptr[m]] <= 65535
    ensures Level(b, quadrant[..], ss) <==> Steady(b, ss)
    ensures forall c: Byte :: c != ss ==> (Level(b, quadrant[..], c) <==> Level(b, old(quadrant[..]), c))
    ensures Decided(b, old(quadrant[..])) ==> (Decided(b, quadrant[..]) <==> Steady(b, ss))
  {
    hide QuadrantsContinued, NotAgainst, SortedBucket, SetFrom, Pow2, Level, Decided, Steady, Scale;
    ghost var bucket, was := ptr[bbStart..bbStart + bbSize], quadrant[..];
    var shifts := Shifts(bbSize);
    var scale := Pow2(shifts);
    SetNone(b, was, bucket, scale, ss);
    var j: nat := bbSize;
    while j > 0
      invariant j <= bbSize && ptr[bbStart..bbStart + bbSize] == bucket
      invariant QuadrantsContinued(quadrant[..], n) && SetFrom(was, quadrant[..], bucket, j, scale, n)
    {
      j := j - 1;
      ghost var now := quadrant[..];
      BucketEntry(b, bucket, ss, j);
      var a2update := ptr[bbStart + j];
      SetQuadrant(quadrant, n, a2update, j / scale);
      SetOne(was, now, quadrant[..], bucket, j, scale, n);
    }
    BucketKeepsOrder(b, was, quadrant[..], bucket, scale, ss);
    LevelAfter(b, was, quadrant[..], bucket, scale, ss);
    DecidedIff(b, was);
    DecidedIff(b, quadrant[..]);
    forall m | bbStart <= m < bbStart + bbSize ensures 0 <= ptr[m] < n && 0 <= quadrant[ptr[m]] <= 65535 {
      assert ptr[m] == bucket[m - bbStart];
      InSixteenBits(was, quadrant[..], bucket, scale, n, m - bbStart);
    }
  }

  lemma SetNone(b: seq<Byte>, was: seq<int>, bucket: seq<int>, scale: nat, ss: Byte)
    requires scale > 0 && SortedBucket(b, bucket, ss) && |b| <= |was|
    ensures SetFrom(was, was, bucket, |bucket|, scale, |b|)
  {
  }

  lemma BucketEntry(b: seq<Byte>, bucket: seq<int>, ss: Byte, k: nat)
    requires SortedBucket(b, bucket, ss) && k < |bucket|
    ensures 0 <= bucket[k] < |b| && forall i, j :: 0 <= i < j < |bucket| ==> bucket[i] != bucket[j]
  {
  }

  lemma InSixteenBits(was: seq<int>, now: seq<int>, bucket: seq<int>, scale: nat, n: nat, k: nat)
    requires scale > 0 && SetFrom(was, now, bucket, 0, scale, n) && k < |bucket| && |bucket| / scale <= 65534
    ensures 0 <= bucket[k] < n && 0 <= now[bucket[k]] <= 65535
  {
    DivMonotone(k, |bucket|, scale);
  }
}
