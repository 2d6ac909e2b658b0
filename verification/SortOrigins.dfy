/** Where the two block sorts agree, and a run that ends with quadrants that do
    not mean what they are documented to mean. */
module SortOrigins {
  import opened Sizes
  import opened Rotations
  import opened Radix
  import opened Bwt
  import opened MainCompare
  import opened MainQuadrants
  import opened MainSort
  import opened BlockSort
  import CompressBlock

  /** One block, sorted both ways. If the main sort is not abandoned, the
      transformed blocks are the same, and so are the origins if the block
      differs from its other rotations. One repeated byte has the first and the
      last place as its origin. */
  method BothSorts(b: seq<Byte>, budget0: int) returns (p: seq<int>, q: seq<int>, mainOrigin: int, fallbackOrigin: int,
      lasted: bool)
    requires BZ_N_OVERSHOOT <= |b| <= 900000 && budget0 >= 0
    ensures SortedRotations(b, q) && 0 <= fallbackOrigin < |b| && q[fallbackOrigin] == 0
    ensures lasted ==>
      SortedRotations(b, p) && 0 <= mainOrigin < |b| && p[mainOrigin] == 0 && LastColumn(b, p) == LastColumn(b, q)
    ensures lasted && Primitive(b) ==> mainOrigin == fallbackOrigin
    ensures Uniform(b) ==> lasted && mainOrigin == 0 && fallbackOrigin == |b| - 1
  {
    hide Uniform, Decided, Steady, Count, Rarest, Cost, LastColumn;
    var n := |b|;
    var fmap := new int[n];
    Fallback(fmap, b);
    q := fmap[..];
    fallbackOrigin := CompressBlock.FindOrigin(fmap, q);
    var block := new Byte[n + BZ_N_OVERSHOOT](i => if 0 <= i < n then b[i] else 0);
    var ptr, quadrant, ftab := new int[n], new int[n + BZ_N_OVERSHOOT], new int[65537];
    assert block[..n] == b;
    var budget, cached, largest := Sort(ptr, block, quadrant, ftab, n, b, budget0);
    p, mainOrigin, lasted := ptr[..], 0, budget >= 0;
    if lasted {
      mainOrigin := CompressBlock.FindOrigin(ptr, p);
      LastColumnUnique(b, p, q);
      if Primitive(b) {
        OriginUnique(b, p, q, fallbackOrigin);
      }
    }
    assert q == fmap[..];
  }

  // ----- quadrants that lose their meaning ---------------------------------

  /** A word with one c, in which every other byte occurs more than once or not
      at all. */
  ghost predicate OneOf(u: seq<Byte>, c: Byte) {
    && Count(u, c, |u|) == 1 && (forall x: Byte :: x == c || Count(u, x, |u|) != 1)
    && exists x: Byte :: Count(u, x, |u|) > 1
  }

  lemma TwiceCounts(u: seq<Byte>, c: Byte)
    ensures Count(u + u, c, |u + u|) == 2 * Count(u, c, |u|)
  {
    CountOver(u, u, c, |u|);
  }

  lemma TwiceRarest(u: seq<Byte>, c: Byte)
    requires OneOf(u, c)
    ensures Rarest(u + u, c)
  {
    hide Count;
    forall x: Byte ensures Count(u + u, x, |u + u|) == 2 * Count(u, x, |u|) {
      TwiceCounts(u, x);
    }
    var x: Byte :| Count(u, x, |u|) > 1;
    assert Count(u + u, x, |u + u|) > Count(u + u, c, |u + u|);
  }

  lemma {:induction false} TwiceSame(u: seq<Byte>, i: nat, h: nat)
    requires u != []
    ensures Same(u + u, i, |u| + i, h)
    decreases h
  {
    if h > 0 {
      TwiceSame(u, i + 1, h - 1);
      TwiceAt(u, i);
    }
  }

  lemma {:induction false} TwiceAt(u: seq<Byte>, i: nat)
    requires u != []
    ensures At(u + u, i) == At(u + u, |u| + i)
    decreases i
  {
    var n := |u + u|;
    if i < |u| {
      assert Wrap(n, |u| + i) == |u| + i;
    } else if i < n {
      assert Wrap(n, |u| + i) == Wrap(n, i - |u|) == i - |u|;
    } else {
      TwiceAt(u, i - n);
      assert Wrap(n, i) == Wrap(n, i - n) && Wrap(n, |u| + i) == Wrap(n, |u| + i - n);
    }
  }

  /** The main sort on such a word written twice: the two rotations that begin
      with c are equal and are given different quadrants, so the documented
      meaning is lost, with any budget that allows for one comparison. */
  method MeaningLost(u: seq<Byte>, c: Byte, budget0: int) returns (quadrants: seq<int>)
    requires OneOf(u, c) && BZ_N_OVERSHOOT <= |u + u| < SETMASK && budget0 >= Cost(|u + u|)
    ensures !Decided(u + u, quadrants)
  {
    hide Uniform, Decided, Steady, Count, Rarest, Cost, OneOf;
    var b := u + u;
    var n := |b|;
    var block := new Byte[n + BZ_N_OVERSHOOT](i => if 0 <= i < n then b[i] else 0);
    var ptr, quadrant, ftab := new int[n], new int[n + BZ_N_OVERSHOOT], new int[65537];
    assert block[..n] == b;
    var budget, cached, largest := Sort(ptr, block, quadrant, ftab, n, b, budget0);
    quadrants := quadrant[..];
    TwiceRarest(u, c);
    NotSteady(u, c);
    assert c in cached;
  }

  lemma NotSteady(u: seq<Byte>, c: Byte)
    requires OneOf(u, c)
    ensures !Steady(u + u, c)
  {
    TwiceCounts(u, c);
    TwiceSame(u, 0, |u + u|);
    SmallSteady(u + u, c);
  }
}
