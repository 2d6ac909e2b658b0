/** crc32_combine: the checksum of a concatenation from the checksums of its
    parts, in time logarithmic in the length of the second part. */
module Crc32Combine {
  import opened Iteration
  import opened Words
  import opened ShiftRegister
  import opened Crc32Spec
  import opened Gf2Matrix

  const ONE: Word := [true] + Zeros(31)

  predicate Odd(w: Word) {
    w[0]
  }

  function Half(w: Word): Word {
    Shr(w, 1)
  }

  function Double(w: Word): Word {
    Shl(w, 1)
  }

  const SPACE: BitSpace<Word> := BitSpace(Xor, ZERO, ONE, Odd, Half, Double)

  lemma {:induction false} Halves(n: nat, w: Word)
    requires n <= 32
    ensures Iter(Half, n, w) == Shr(w, n)
  {
    if n == 0 {
      assert Shr(w, 0) == w;
    } else {
      Halves(n - 1, Half(w));
      assert Shr(Shr(w, 1), n - 1) == Shr(w, n);
    }
  }

  lemma {:induction false} Doubles(n: nat, w: Word)
    requires n <= 32
    ensures Iter(Double, n, w) == Shl(w, n)
  {
    if n == 0 {
      assert Shl(w, 0) == w;
    } else {
      Doubles(n - 1, Double(w));
      assert Shl(Shl(w, 1), n - 1) == Shl(w, n);
    }
  }

  lemma AllOut(w: Word)
    ensures Iter(Half, 32, w) == ZERO && Iter(Double, 32, w) == ZERO
  {
    Halves(32, w);
    Doubles(32, w);
    assert Shr(w, 32) == ZERO && Shl(w, 32) == ZERO;
  }

  lemma LowestAndRest(w: Word)
    ensures w == Xor(if Odd(w) then ONE else ZERO, Double(Half(w)))
  {
  }

  lemma SpaceSums()
    ensures SPACE.SumLaw()
  {
    forall a, b, c ensures Xor(Xor(a, b), c) == Xor(a, Xor(b, c)) {
      XorAssoc(a, b, c);
    }
    forall a ensures Xor(a, ZERO) == a && Xor(ZERO, a) == a {
      XorZero(a);
    }
  }

  lemma SpaceLowest()
    ensures SPACE.LowestLaw()
  {
    forall w ensures w == Xor(if Odd(w) then ONE else ZERO, Double(Half(w))) {
      LowestAndRest(w);
    }
    assert Double(ZERO) == ZERO && Half(ZERO) == ZERO;
  }

  lemma SpaceWidth()
    ensures SPACE.WidthLaw()
  {
    forall w ensures Iter(Half, 32, w) == ZERO && Iter(Double, 32, w) == ZERO {
      AllOut(w);
    }
  }

  lemma SpaceLaws()
    ensures SPACE.Laws()
  {
    forall a, b ensures Double(Xor(a, b)) == Xor(Double(a), Double(b)) {
      ShlXor(a, b, 1);
    }
    SpaceSums();
    SpaceLowest();
    SpaceWidth();
  }

  lemma StepIsLinearMap()
    ensures SPACE.LinearMap(Step)
  {
    CrcLinear();
    assert Step(ZERO) == ZERO;
  }

  /** Column k of the one-zero-bit operator. */
  lemma FirstColumn()
    ensures POLYNOMIAL == Step(ONE)
  {
  }

  lemma OtherColumn(k: nat)
    requires 0 < k < 32
    ensures Shl(ONE, k - 1) == Step(Shl(ONE, k))
  {
  }

  lemma OneZeroBit(m: seq<Word>)
    requires |m| == 32 && m[0] == POLYNOMIAL && forall i :: 1 <= i < 32 ==> m[i] == Shl(ONE, i - 1)
    ensures SPACE.Represents(m, Step, 1)
  {
    forall k | 0 <= k < 32 ensures m[k] == Iter(Step, 1, SPACE.Basis(k)) {
      Column(m, k);
    }
  }

  lemma Column(m: seq<Word>, k: nat)
    requires |m| == 32 && m[0] == POLYNOMIAL && forall i :: 1 <= i < 32 ==> m[i] == Shl(ONE, i - 1)
    requires k < 32
    ensures m[k] == Iter(Step, 1, SPACE.Basis(k))
  {
    hide Step, Shl;
    Doubles(k, ONE);
    if k == 0 {
      FirstColumn();
    } else {
      OtherColumn(k);
    }
  }

  /** What the second part adds: the first checksum pushed through as many zero
      bytes, plus the second checksum. */
  lemma ConcatIsSum(a: seq<Byte>, b: seq<Byte>, previous: Word)
    ensures Crc(a + b, previous) == Xor(CRC.Steps(8 * |b|, Crc(a, previous)), Crc(b, ZERO))
  {
    CrcConcat(a, b, previous);
    SumFromComplement(Crc(a, previous), b);
  }

  lemma CrcAssoc()
    ensures CRC.AssocLaw()
  {
    forall x, y, z ensures Xor(Xor(x, y), z) == Xor(x, Xor(y, z)) {
      XorAssoc(x, y, z);
    }
  }

  lemma SumFromComplement(crcA: Word, b: seq<Byte>)
    ensures Crc(b, crcA) == Xor(CRC.Steps(8 * |b|, crcA), Crc(b, ZERO))
  {
    hide *;
    CrcLaws();
    CrcAssoc();
    NotIsSum(crcA);
    CRC.RunSplit(crcA, Not(ZERO), b);
    NotOfSum(CRC.Steps(8 * |b|, crcA), CRC.Run(Not(ZERO), b));
    CrcUnfold(b, crcA);
    CrcUnfold(b, ZERO);
    CrcAdd();
  }

  lemma CrcUnfold(b: seq<Byte>, c: Word)
    ensures Crc(b, c) == Not(CRC.Run(Not(c), b))
  {
  }

  lemma CrcAdd()
    ensures CRC.add == Xor
  {
  }

  lemma NotIsSum(a: Word)
    ensures Not(a) == Xor(a, Not(ZERO))
  {
  }

  lemma NotOfSum(a: Word, b: Word)
    ensures Not(Xor(a, b)) == Xor(a, Not(b))
  {
  }

  method Combine(crcA: Word, crcB: Word, lengthB: nat) returns (r: Word)
    ensures lengthB == 0 ==> r == crcA
    ensures lengthB > 0 ==> r == Xor(CRC.Steps(8 * lengthB, crcA), crcB)
  {
    if lengthB == 0 {
      return crcA;
    }
    var odd, even := new Word[32], new Word[32];
    odd[0] := POLYNOMIAL;
    for i := 1 to 32
      invariant odd[0] == POLYNOMIAL
      invariant forall k :: 1 <= k < i ==> odd[k] == Shl(ONE, k - 1)
    {
      odd[i] := Shl(ONE, i - 1);
    }
    OneZeroBit(odd[..]);
    SpaceLaws();
    StepIsLinearMap();
    r := Squarings(odd, even, crcA, crcB, lengthB);
  }

  method Squarings(odd: array<Word>, even: array<Word>, crcA: Word, crcB: Word, lengthB: nat) returns (r: Word)
    requires SPACE.Laws() && SPACE.LinearMap(Step) && odd != even && odd.Length == 32 && even.Length == 32
    requires SPACE.Represents(odd[..], Step, 1)
    modifies odd, even
    ensures r == Xor(CRC.Steps(8 * lengthB, crcA), crcB)
  {
    hide *;
    SPACE.MatrixSquare(even, odd, Step, 1);
    SPACE.MatrixSquare(odd, even, Step, 2);
    r := SPACE.ApplyBytes(even, odd, crcA, lengthB, Step);
    StepsUnfold(8 * lengthB, crcA);
    r := Xor(r, crcB);
  }

  lemma StepsUnfold(n: nat, w: Word)
    ensures CRC.Steps(n, w) == Iter(Step, n, w)
  {
  }

  /** The checksum of a concatenation, from the checksums of its parts alone. */
  method CombineConcat(a: seq<Byte>, b: seq<Byte>, previous: Word) returns (r: Word)
    ensures r == Crc(a + b, previous)
  {
    r := Combine(Crc(a, previous), Crc(b, ZERO), |b|);
    ConcatIsSum(a, b, previous);
    if b == [] {
      assert a + b == a;
    }
  }
}
