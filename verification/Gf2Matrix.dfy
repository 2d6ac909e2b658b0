/** Square matrices over the two-element field, as the columns they send the
    thirty-two unit vectors to, and applying a linear step many times by
    repeated squaring. */
module Gf2Matrix {
  import opened Iteration

  /** `unit` is the word 1, `half` and `double` shift by one bit. */
  datatype BitSpace<!W(==, !new)> = BitSpace(add: (W, W) -> W, zero: W, unit: W, odd: W -> bool, half: W -> W,
      double: W -> W)
  {
    ghost predicate Laws() {
      Linear(double, add) && SumLaw() && LowestLaw() && WidthLaw()
    }

    ghost predicate SumLaw() {
      && (forall a, b, c :: add(add(a, b), c) == add(a, add(b, c)))
      && (forall a :: add(a, zero) == a && add(zero, a) == a)
    }

    /** A word is its lowest bit plus the rest shifted back up. */
    ghost predicate LowestLaw() {
      && (forall w :: w == add(Lowest(w), double(half(w))))
      && double(zero) == zero && half(zero) == zero && !odd(zero)
    }

    /** Nothing is left after thirty-two shifts. */
    ghost predicate WidthLaw() {
      forall w :: Iter(half, 32, w) == zero && Iter(double, 32, w) == zero
    }

    /** The lowest bit alone. */
    function Lowest(w: W): W {
      if odd(w) then unit else zero
    }

    /** The unit vector with bit k set. */
    function Basis(k: nat): W {
      Iter(double, k, unit)
    }

    /** Matrix m times vector v: the sum of the columns v selects. */
    function Times(m: seq<W>, v: W): W {
      if m == [] then zero else add(if odd(v) then m[0] else zero, Times(m[1..], half(v)))
    }

    /** m is the matrix of n repetitions of f. */
    ghost predicate Represents(m: seq<W>, f: W -> W, n: nat) {
      |m| == 32 && forall k :: 0 <= k < 32 ==> m[k] == Iter(f, n, Basis(k))
    }

    ghost predicate LinearMap(f: W -> W) {
      Linear(f, add) && f(zero) == zero
    }

    lemma {:induction false} TimesZero(m: seq<W>)
      requires Laws()
      ensures Times(m, zero) == zero
    {
      if m != [] {
        TimesZero(m[1..]);
      }
    }

    lemma SplitLowest(i: nat, w: W)
      requires Laws()
      ensures Iter(double, i, w) == add(if odd(w) then Basis(i) else zero, Iter(double, i + 1, half(w)))
    {
      IterLinear(double, add, i, Lowest(w), double(half(w)));
      IterFixpoint(double, i, zero);
    }

    lemma NothingLeft(f: W -> W, n: nat, w: W)
      requires Laws() && LinearMap(f)
      ensures Iter(f, n, zero) == zero && Iter(double, 32, w) == zero
    {
      IterFixpoint(f, n, zero);
    }

    lemma SplitUnder(f: W -> W, n: nat, i: nat, w: W)
      requires Laws() && LinearMap(f)
      ensures Iter(f, n, Iter(double, i, w)) ==
              add(if odd(w) then Iter(f, n, Basis(i)) else zero, Iter(f, n, Iter(double, i + 1, half(w))))
    {
      hide Laws;
      NothingLeft(f, n, w);
      SplitLowest(i, w);
      IterLinear(f, add, n, if odd(w) then Basis(i) else zero, Iter(double, i + 1, half(w)));
    }

    /** A matrix acts on every vector as the map it represents. */
    lemma {:induction false} TimesFrom(m: seq<W>, f: W -> W, n: nat, i: nat, w: W)
      requires Laws() && LinearMap(f) && Represents(m, f, n) && i <= 32
      ensures Times(m[i..], w) == Iter(f, n, Iter(double, i, w))
      decreases 32 - i
    {
      hide Laws, LinearMap;
      NothingLeft(f, n, w);
      if i < 32 {
        TimesFrom(m, f, n, i + 1, half(w));
        SplitUnder(f, n, i, w);
        assert m[i..][1..] == m[i + 1..];
      }
    }

    lemma TimesIs(m: seq<W>, f: W -> W, n: nat, w: W)
      requires Laws() && LinearMap(f) && Represents(m, f, n)
      ensures Times(m, w) == Iter(f, n, w)
    {
      TimesFrom(m, f, n, 0, w);
      assert m[0..] == m;
    }

    /** Multiplying every column by the matrix squares it. */
    lemma SquareIs(a: seq<W>, b: seq<W>, f: W -> W, n: nat)
      requires Laws() && LinearMap(f) && Represents(b, f, n)
      requires |a| == 32 && forall k :: 0 <= k < 32 ==> a[k] == Times(b, b[k])
      ensures Represents(a, f, 2 * n)
    {
      hide Laws;
      forall k | 0 <= k < 32
        ensures a[k] == Iter(f, 2 * n, Basis(k))
      {
        TimesIs(b, f, n, b[k]);
        IterAdd(f, n, n, Basis(k));
      }
    }

    lemma TimesStep(m: seq<W>, j: nat, vec: W, sum: W)
      requires Laws() && j < |m|
      ensures add(sum, Times(m[j..], vec)) ==
        add(if odd(vec) then add(sum, m[j]) else sum, Times(m[j + 1..], half(vec)))
    {
      assert m[j..][1..] == m[j + 1..];
    }

    /** The inner loop: walk the bits of v, adding the selected columns, and
        stop as soon as no bit is left. */
    method MatrixTimes(m: array<W>, v: W) returns (sum: W)
      requires Laws() && m.Length == 32
      ensures sum == Times(m[..], v)
    {
      hide Laws;
      Basics(v);
      sum := zero;
      var vec, j := v, 0;
      assert m[..][0..] == m[..];
      while vec != zero
        invariant j <= 32 && vec == Iter(half, j, v)
        invariant add(sum, Times(m[..][j..], vec)) == Times(m[..], v)
        decreases 32 - j
      {
        TimesStep(m[..], j, vec, sum);
        if odd(vec) {
          sum := add(sum, m[j]);
        }
        IterAdd(half, j, 1, v);
        j, vec := j + 1, half(vec);
      }
      TimesZero(m[..][j..]);
      Neutral(sum);
    }

    lemma Basics(v: W)
      requires Laws()
      ensures Iter(half, 32, v) == zero
      ensures forall t: W :: add(zero, t) == t
    {
    }

    lemma Neutral(a: W)
      requires Laws()
      ensures add(a, zero) == a
    {
    }

    /** gf2_matrix_square(a, b) */
    method MatrixSquare(a: array<W>, b: array<W>, ghost f: W -> W, ghost n: nat)
      requires Laws() && LinearMap(f) && a != b && a.Length == 32 && b.Length == 32
      requires Represents(b[..], f, n)
      modifies a
      ensures Represents(a[..], f, 2 * n)
    {
      hide Laws, LinearMap, Represents;
      for i := 0 to 32
        invariant b[..] == old(b[..])
        invariant forall k :: 0 <= k < i ==> a[k] == Times(b[..], b[k])
      {
        a[i] := MatrixTimes(b, b[i]);
      }
      SquareIs(a[..], b[..], f, n);
    }

    /** One bit of the length: the rest is twice as wide and half as long. */
    lemma HalveLength(f: W -> W, p: nat, left: nat, r: W)
      ensures Iter(f, 8 * (p * left), r) ==
              Iter(f, 8 * (2 * p * (left / 2)), if left % 2 == 1 then Iter(f, 8 * p, r) else r)
    {
      hide *;
      var h := left / 2;
      Doubled(p, h, left % 2);
      assert left == 2 * h + left % 2;
      if left % 2 == 1 {
        IterAdd(f, 8 * p, 8 * (2 * p * h), r);
      }
    }

    static lemma Doubled(p: nat, h: nat, bit: nat)
      ensures p * (2 * h + bit) == 2 * p * h + p * bit
    {
    }

    /** Apply f eight times for each of `length` bytes: square the operator
        once per bit of the length, multiply where the bit is set. `b` comes in
        as the operator for four repetitions. */
    method ApplyBytes(a0: array<W>, b0: array<W>, v: W, length: nat, ghost f: W -> W) returns (r: W)
      requires Laws() && LinearMap(f) && a0 != b0 && a0.Length == 32 && b0.Length == 32
      requires Represents(b0[..], f, 4)
      modifies a0, b0
      ensures r == Iter(f, 8 * length, v)
    {
      hide Laws, LinearMap, Represents;
      var a, b := a0, b0;
      var left := length;
      ghost var p := 1;
      r := v;
      while left > 0
        invariant (a == a0 && b == b0) || (a == b0 && b == a0)
        invariant Represents(b[..], f, 4 * p)
        invariant Iter(f, 8 * (p * left), r) == Iter(f, 8 * length, v)
      {
        MatrixSquare(a, b, f, 4 * p);
        HalveLength(f, p, left, r);
        if left % 2 == 1 {
          TimesIs(a[..], f, 8 * p, r);
          r := MatrixTimes(a, r);
        }
        a, b := b, a;
        p := 2 * p;
        left := left / 2;
      }
    }
  }
}
