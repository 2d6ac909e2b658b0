/** The two forms of lib/archive/crc32.cc that compute a byte's effect without
    a table. Both rest on the bits of the polynomial: its low bits are clear
    except bit 5, so the bit leaving the register at step j is bit j of the
    mixed byte, plus bit j - 6 for the last two steps. */
module Crc32Tableless {
  import opened Arithmetic
  import opened Words
  import opened ShiftRegister
  import opened Crc32Spec
  import opened Crc32

  /** Bit k of the polynomial, false outside the word. */
  predicate P(k: nat) {
    k < 32 && POLYNOMIAL[k]
  }

  lemma FirstByte()
    ensures !P(0) && !P(1) && !P(2) && !P(3) && !P(4) && P(5) && !P(6) && !P(7)
  {
  }

  lemma SecondByte()
    ensures P(8) && P(9) && !P(10) && !P(11) && !P(12) && !P(13) && !P(14) && P(15)
  {
  }

  lemma ThirdByte()
    ensures !P(16) && !P(17) && !P(18) && P(19) && P(20) && P(21) && !P(22) && P(23)
  {
  }

  lemma FourthByte()
    ensures P(24) && !P(25) && P(26) && P(27) && !P(28) && P(29) && P(30) && P(31)
  {
  }

  lemma Outside(k: nat)
    requires k >= 32
    ensures !P(k)
  {
  }

  lemma PolynomialBits()
    ensures PolynomialKnown()
  {
    hide P, POLYNOMIAL;
    FirstByte();
    SecondByte();
    ThirdByte();
    FourthByte();
    forall k: nat ensures P(k) <==> k in {5, 8, 9, 15, 19, 20, 21, 23, 24, 26, 27, 29, 30, 31} {
      if k >= 32 {
        Outside(k);
      }
    }
  }

  // ----- the feedback bits -------------------------------------------------

  function Selected(b: bool): Word {
    if b then POLYNOMIAL else ZERO
  }

  /** What the feedback bits so far have put into the register. */
  function Folded(fs: seq<bool>): Word {
    if fs == [] then ZERO else Xor(Shr(Folded(fs[..|fs| - 1]), 1), Selected(fs[|fs| - 1]))
  }

  lemma SelectedSum(a: Word, p: bool, b: Word, q: bool)
    ensures Xor(Xor(a, Selected(p)), Xor(b, Selected(q))) == Xor(a, Xor(b, Selected(p != q)))
  {
    hide POLYNOMIAL;
  }

  lemma ShiftOn(x: Word, j: nat)
    requires j < 32
    ensures Shr(Shr(x, j), 1) == Shr(x, j + 1) && Shr(x, j)[0] == x[j]
  {
  }

  lemma StepApart(x: Word, j: nat, acc: Word)
    requires j < 32
    ensures Step(Xor(Shr(x, j), acc)) == Xor(Shr(x, j + 1), Xor(Shr(acc, 1), Selected(x[j] != acc[0])))
  {
    hide Xor, Shr, POLYNOMIAL;
    StepLinear(Shr(x, j), acc);
    ShiftOn(x, j);
    SelectedSum(Shr(x, j + 1), x[j], Shr(acc, 1), acc[0]);
  }

  lemma LastStep(x: Word, n: nat, acc: Word)
    requires n < 32
    ensures CRC.Steps(1, Xor(Shr(x, n), acc)) == Xor(Shr(x, n + 1), Xor(Shr(acc, 1), Selected(x[n] != acc[0])))
  {
    StepApart(x, n, acc);
  }

  /** n steps from x shift x and leave in the register what fs folded in. */
  ghost predicate Apart(x: Word, fs: seq<bool>) {
    |fs| <= 32 && CRC.Steps(|fs|, x) == Xor(Shr(x, |fs|), Folded(fs))
  }

  lemma FoldedMore(fs: seq<bool>, b: bool)
    ensures Folded(fs + [b]) == Xor(Shr(Folded(fs), 1), Selected(b))
  {
    assert (fs + [b])[..|fs|] == fs;
  }

  lemma OneMore(x: Word, fs: seq<bool>, b: bool)
    requires |fs| < 32 && Apart(x, fs) && b == (x[|fs|] != Folded(fs)[0])
    ensures Apart(x, fs + [b])
  {
    hide Folded, Xor, Shr, Selected, Register.Steps;
    FoldedMore(fs, b);
    CRC.StepsAdd(|fs|, 1, x);
    LastStep(x, |fs|, Folded(fs));
  }

  /** Bit i of Folded(fs), written out. */
  predicate Parity(fs: seq<bool>, i: nat) {
    fs != [] && (Parity(fs[..|fs| - 1], i + 1) != (fs[|fs| - 1] && P(i)))
  }

  lemma {:induction false} FoldedBit(fs: seq<bool>, i: nat)
    requires i < 32 && |fs| <= 32
    ensures Folded(fs)[i] == Parity(fs, i)
  {
    if fs != [] {
      var before := fs[..|fs| - 1];
      if i < 31 {
        FoldedBit(before, i + 1);
      } else {
        OutOfWord(before, 32);
      }
    }
  }

  lemma {:induction false} OutOfWord(fs: seq<bool>, i: nat)
    requires i >= 32
    ensures !Parity(fs, i)
  {
    if fs != [] {
      OutOfWord(fs[..|fs| - 1], i + 1);
    }
  }

  /** Bit 0 of what is folded in: clear for the first six steps, then the bit
      that left six steps earlier. */
  lemma LowestFolded(fs: seq<bool>)
    requires |fs| <= 7
    ensures Folded(fs)[0] == (|fs| >= 6 && fs[|fs| - 6])
  {
    hide Folded, P;
    FoldedBit(fs, 0);
    PolynomialBits();
    ParityWalk(fs, 0);
  }

  lemma {:induction false} ParityWalk(fs: seq<bool>, i: nat)
    requires |fs| + i <= 7
    requires forall k: nat {:trigger P(k)} :: k <= 7 ==> (P(k) <==> k == 5)
    ensures Parity(fs, i) == (i <= 5 && |fs| + i >= 6 && fs[|fs| + i - 6])
  {
    hide P;
    if fs != [] {
      ParityWalk(fs[..|fs| - 1], i + 1);
    }
  }

  /** The bits that leave the register in eight steps. */
  function Feedback(x: Word): seq<bool> {
    [x[0], x[1], x[2], x[3], x[4], x[5], x[6] != x[0], x[7] != x[1]]
  }

  lemma {:induction false} ApartSoFar(x: Word, j: nat)
    requires j <= 8
    ensures Apart(x, Feedback(x)[..j])
  {
    hide Apart;
    if j == 0 {
      NoSteps(x);
    } else {
      ApartSoFar(x, j - 1);
      Extend(x, Feedback(x), j - 1);
    }
  }

  lemma EightApart(x: Word)
    ensures CRC.Steps(8, x) == Xor(Shr(x, 8), Folded(Feedback(x)))
  {
    hide Folded, Xor, Shr, Register.Steps;
    ApartSoFar(x, 8);
    assert Feedback(x)[..8] == Feedback(x);
  }

  lemma NoSteps(x: Word)
    ensures Apart(x, [])
  {
    assert Xor(Shr(x, 0), ZERO) == x;
  }

  lemma Extend(x: Word, f: seq<bool>, j: nat)
    requires f == Feedback(x) && j < 8 && Apart(x, f[..j])
    ensures Apart(x, f[..j + 1])
  {
    hide Folded, Apart;
    LowestFolded(f[..j]);
    OneMore(x, f[..j], f[j]);
    assert f[..j + 1] == f[..j] + [f[j]];
  }

  lemma ParityEight(f: seq<bool>, i: nat)
    requires |f| == 8
    ensures Parity(f, i) ==
            ((((((((f[0] && P(i + 7)) != (f[1] && P(i + 6))) != (f[2] && P(i + 5))) != (f[3] && P(i + 4)))
                != (f[4] && P(i + 3))) != (f[5] && P(i + 2))) != (f[6] && P(i + 1))) != (f[7] && P(i)))
  {
    hide P;
    assert Parity(f, i) == (Parity(f[..7], i + 1) != (f[7] && P(i)));
    assert f[..7][..6] == f[..6] && f[..6][..5] == f[..5] && f[..5][..4] == f[..4];
    assert Parity(f[..7], i + 1) == (Parity(f[..6], i + 2) != (f[6] && P(i + 1)));
    assert Parity(f[..6], i + 2) == (Parity(f[..5], i + 3) != (f[5] && P(i + 2)));
    assert Parity(f[..5], i + 3) == (Parity(f[..4], i + 4) != (f[4] && P(i + 3)));
    ParityFour(f[..4], i + 4);
  }

  lemma ParityFour(f: seq<bool>, i: nat)
    requires |f| == 4
    ensures Parity(f, i) == ((((f[0] && P(i + 3)) != (f[1] && P(i + 2))) != (f[2] && P(i + 1))) != (f[3] && P(i)))
  {
    hide P;
    assert f[..3][..2] == f[..2] && f[..2][..1] == f[..1] && f[..1][..0] == [];
    assert Parity(f, i) == (Parity(f[..3], i + 1) != (f[3] && P(i)));
    assert Parity(f[..3], i + 1) == (Parity(f[..2], i + 2) != (f[2] && P(i + 1)));
    assert Parity(f[..2], i + 2) == (Parity(f[..1], i + 3) != (f[1] && P(i + 2)));
    assert Parity(f[..1], i + 3) == (Parity([], i + 4) != (f[0] && P(i + 3)));
  }

  // ----- second tableless form ---------------------------------------------

  /** ((crc << (31 - j)) >> 31) on a signed word: bit j spread over the word. */
  function SignSpread(crc: Word, j: nat): Word
    requires j < 32
  {
    Sar(Shl(crc, 31 - j), 31)
  }

  /** The constant c of the second form. */
  function MaskedSum(crc: Word): Word {
    Xor(Xor(Xor(Xor(Xor(Xor(Xor(
      And(SignSpread(crc, 0), Xor(Shr(POLYNOMIAL, 7), Shr(POLYNOMIAL, 1))),
      And(SignSpread(crc, 1), Xor(Shr(POLYNOMIAL, 6), POLYNOMIAL))),
      And(SignSpread(crc, 2), Shr(POLYNOMIAL, 5))),
      And(SignSpread(crc, 3), Shr(POLYNOMIAL, 4))),
      And(SignSpread(crc, 4), Shr(POLYNOMIAL, 3))),
      And(SignSpread(crc, 5), Shr(POLYNOMIAL, 2))),
      And(SignSpread(crc, 6), Shr(POLYNOMIAL, 1))),
      And(SignSpread(crc, 7), POLYNOMIAL))
  }

  lemma SignSpreadBit(crc: Word, j: nat, i: nat)
    requires j < 32 && i < 32
    ensures SignSpread(crc, j)[i] == crc[j]
  {
  }

  lemma TermBit(x: Word, j: nat, k: nat, i: nat)
    requires j < 32 && k < 32 && i < 32
    ensures And(SignSpread(x, j), Shr(POLYNOMIAL, k))[i] == (x[j] && P(i + k))
  {
    hide POLYNOMIAL;
    SignSpreadBit(x, j, i);
  }

  lemma DoubleTermBit(x: Word, j: nat, k: nat, l: nat, i: nat)
    requires j < 32 && k < 32 && l < 32 && i < 32
    ensures And(SignSpread(x, j), Xor(Shr(POLYNOMIAL, k), Shr(POLYNOMIAL, l)))[i] == (x[j] && (P(i + k) != P(i + l)))
  {
    hide POLYNOMIAL;
    SignSpreadBit(x, j, i);
  }

  lemma ShrZero(w: Word)
    ensures Shr(w, 0) == w
  {
  }

  lemma EightSum(a: Word, b: Word, c: Word, d: Word, e: Word, f: Word, g: Word, h: Word, i: nat)
    requires i < 32
    ensures Xor(Xor(Xor(Xor(Xor(Xor(Xor(a, b), c), d), e), f), g), h)[i] ==
            (((((((a[i] != b[i]) != c[i]) != d[i]) != e[i]) != f[i]) != g[i]) != h[i])
  {
  }

  /** Bit i of the sum, term by term. */
  lemma MaskedTerms(x: Word, i: nat)
    requires i < 32
    ensures MaskedSum(x)[i] ==
            ((((((((x[0] && (P(i + 7) != P(i + 1))) != (x[1] && (P(i + 6) != P(i)))) != (x[2] && P(i + 5))) != (x[3] && P(i + 4)))
                != (x[4] && P(i + 3))) != (x[5] && P(i + 2))) != (x[6] && P(i + 1))) != (x[7] && P(i)))
  {
    hide POLYNOMIAL, SignSpread, And, Shr, Xor, P;
    ShrZero(POLYNOMIAL);
    EightSum(And(SignSpread(x, 0), Xor(Shr(POLYNOMIAL, 7), Shr(POLYNOMIAL, 1))), And(SignSpread(x, 1), Xor(Shr(POLYNOMIAL, 6), POLYNOMIAL)),
             And(SignSpread(x, 2), Shr(POLYNOMIAL, 5)), And(SignSpread(x, 3), Shr(POLYNOMIAL, 4)), And(SignSpread(x, 4), Shr(POLYNOMIAL, 3)),
             And(SignSpread(x, 5), Shr(POLYNOMIAL, 2)), And(SignSpread(x, 6), Shr(POLYNOMIAL, 1)), And(SignSpread(x, 7),
               POLYNOMIAL), i);
    DoubleTermBit(x, 0, 7, 1, i);
    DoubleTermBit(x, 1, 6, 0, i);
    TermBit(x, 2, 5, i);
    TermBit(x, 3, 4, i);
    TermBit(x, 4, 3, i);
    TermBit(x, 5, 2, i);
    TermBit(x, 6, 1, i);
    TermBit(x, 7, 0, i);
  }

  lemma MaskedSumBit(x: Word, i: nat)
    requires i < 32
    ensures MaskedSum(x)[i] == Folded(Feedback(x))[i]
  {
    hide Folded, Parity, MaskedSum, P;
    FoldedBit(Feedback(x), i);
    ParityEight(Feedback(x), i);
    MaskedTerms(x, i);
  }

  lemma MaskedSumIs(x: Word)
    ensures MaskedSum(x) == Folded(Feedback(x))
  {
    hide Folded, MaskedSum, Feedback;
    forall i | 0 <= i < 32 ensures MaskedSum(x)[i] == Folded(Feedback(x))[i] {
      MaskedSumBit(x, i);
    }
  }

  method Tableless2(data: seq<Byte>, previous: Word) returns (r: Word)
    ensures r == Crc(data, previous)
  {
    hide MaskedSum, Xor, Shr, Not, Feedback, Folded, Register.Feed;
    var init := Not(previous);
    var crc := init;
    var i := 0;
    while i < |data|
      invariant i <= |data|
      invariant crc == Seen(init, data, i)
    {
      SeenByte(init, data, i);
      MaskedStep(crc, data[i]);
      crc := Xor(crc, Widen(data[i]));
      crc := Xor(Shr(crc, 8), MaskedSum(crc));
      i := i + 1;
    }
    assert data[..i] == data;
    r := Not(crc);
  }

  lemma MaskedStep(crc: Word, b: Byte)
    ensures CRC.Feed(crc, b) == Xor(Shr(Xor(crc, Widen(b)), 8), MaskedSum(Xor(crc, Widen(b))))
  {
    hide MaskedSum, Shr, Feedback, Folded;
    var x := Xor(crc, Widen(b));
    EightApart(x);
    MaskedSumIs(x);
  }

  // ----- first tableless form ----------------------------------------------

  /** The 32-bit product of a word and a constant. */
  function Mul(w: Word, c: nat): Word {
    seq(32, i requires 0 <= i => Bit(Val(w) * c, i))
  }

  /** A word that fits in a byte. */
  predicate Small(w: Word) {
    forall i :: 8 <= i < 32 ==> !w[i]
  }

  /** Bit k of a small word, false for negative k too. */
  predicate L(w: Word, k: int) {
    0 <= k < 8 && w[k]
  }

  /** The low bits of w with n zeros below. */
  function Above(n: nat, w: Word): (s: seq<bool>)
    ensures |s| == n + 8
    ensures forall i :: 0 <= i < n + 8 ==> s[i] == L(w, i - n)
  {
    Zeros(n) + w[..8]
  }

  lemma AboveVal(n: nat, w: Word, rest: seq<bool>)
    requires Small(w)
    ensures Val(Above(n, w) + rest) == Pow2(n) * Val(w) + Pow2(n + 8) * Val(rest)
  {
    assert Above(n, w) + rest == Zeros(n) + (w[..8] + rest);
    ValConcat(Zeros(n), w[..8] + rest);
    ValZeros(Zeros(n));
    ValConcat(w[..8], rest);
    assert w == w[..8] + w[8..];
    ValConcat(w[..8], w[8..]);
    ValZeros(w[8..]);
    Pow2Add(n, 8);
    Distribute(Pow2(n), Val(w), Pow2(8), Val(rest));
  }

  lemma Distribute(p: nat, v: nat, q: nat, r: nat)
    ensures p * (v + q * r) == p * v + (p * q) * r
  {
    MulAssoc(p, q, r);
  }

  /** Two copies of a small word, b and a bits up. */
  function TwoCopies(w: Word, a: nat, b: nat): (z: Word)
    requires b + 8 <= a <= 24
    ensures forall i :: 0 <= i < 32 ==> z[i] == (L(w, i - a) != L(w, i - b))
  {
    Above(b, w) + (Above(a - b - 8, w) + Zeros(24 - a))
  }

  /** Three copies of a small word, c, b and a bits up. */
  function ThreeCopies(w: Word, a: nat, b: nat, c: nat): (z: Word)
    requires c + 8 <= b && b + 8 <= a <= 24
    ensures forall i :: 0 <= i < 32 ==> z[i] == ((L(w, i - a) != L(w, i - b)) != L(w, i - c))
  {
    Above(c, w) + (Above(b - c - 8, w) + (Above(a - b - 8, w) + Zeros(24 - a)))
  }

  /** Copies far enough apart do not carry into each other. */
  lemma TwoCopiesVal(w: Word, a: nat, b: nat)
    requires Small(w) && b + 8 <= a <= 24
    ensures Val(TwoCopies(w, a, b)) == Val(w) * (Pow2(a) + Pow2(b))
  {
    hide Val, Above, Small, Pow2;
    AboveVal(b, w, Above(a - b - 8, w) + Zeros(24 - a));
    AboveVal(a - b - 8, w, Zeros(24 - a));
    ValZeros(Zeros(24 - a));
    Pow2Add(b + 8, a - b - 8);
    MulAssoc(Pow2(b + 8), Pow2(a - b - 8), Val(w));
    Collect3(Val(w), Pow2(a), Pow2(b), 0);
  }

  lemma ThreeCopiesVal(w: Word, a: nat, b: nat, c: nat)
    requires Small(w) && c + 8 <= b && b + 8 <= a <= 24
    ensures Val(ThreeCopies(w, a, b, c)) == Val(w) * (Pow2(a) + Pow2(b) + Pow2(c))
  {
    hide *;
    var top := Above(a - b - 8, w) + Zeros(24 - a);
    var mid := Above(b - c - 8, w) + top;
    TopVal(w, a, b);
    AboveVal(b - c - 8, w, top);
    AboveVal(c, w, mid);
    assert b - c - 8 + 8 == b - c;
    ThreePlaces(a, b, c, Val(w));
    ThreeCopiesAre(w, a, b, c);
  }

  lemma TopVal(w: Word, a: nat, b: nat)
    requires Small(w) && b + 8 <= a <= 24
    ensures Val(Above(a - b - 8, w) + Zeros(24 - a)) == Pow2(a - b - 8) * Val(w)
  {
    hide *;
    AboveVal(a - b - 8, w, Zeros(24 - a));
    ValZeros(Zeros(24 - a));
  }

  lemma ThreeCopiesAre(w: Word, a: nat, b: nat, c: nat)
    requires c + 8 <= b && b + 8 <= a <= 24
    ensures ThreeCopies(w, a, b, c) == Above(c, w) + (Above(b - c - 8, w) + (Above(a - b - 8, w) + Zeros(24 - a)))
  {
  }

  lemma MulIs(w: Word, c: nat, z: Word)
    requires Val(z) == Val(w) * c
    ensures Mul(w, c) == z
  {
    hide Val, Bit;
    forall i | 0 <= i < 32 ensures Bit(Val(w) * c, i) == z[i] {
      ValBit(z, i);
    }
  }

  lemma MulTwo(w: Word, a: nat, b: nat)
    requires Small(w) && b + 8 <= a <= 24
    ensures Mul(w, Pow2(a) + Pow2(b)) == TwoCopies(w, a, b)
  {
    TwoCopiesVal(w, a, b);
    hide *;
    MulIs(w, Pow2(a) + Pow2(b), TwoCopies(w, a, b));
  }

  lemma MulThree(w: Word, a: nat, b: nat, c: nat)
    requires Small(w) && c + 8 <= b && b + 8 <= a <= 24
    ensures Mul(w, Pow2(a) + Pow2(b) + Pow2(c)) == ThreeCopies(w, a, b, c)
  {
    ThreeCopiesVal(w, a, b, c);
    hide *;
    MulIs(w, Pow2(a) + Pow2(b) + Pow2(c), ThreeCopies(w, a, b, c));
  }

  lemma ThreePlaces(a: nat, b: nat, c: nat, v: nat)
    requires c + 8 <= b && b + 8 <= a
    ensures Pow2(c) * v + Pow2(c + 8) * (Pow2(b - c - 8) * v + Pow2(b - c) * (Pow2(a - b - 8) * v)) ==
      v * (Pow2(a) + Pow2(b) + Pow2(c))
  {
    hide *;
    Pow2Add(c + 8, b - c - 8);
    Pow2Add(b - c, a - b - 8);
    MulAssoc(Pow2(b - c), Pow2(a - b - 8), v);
    Pow2Add(c + 8, a - c - 8);
    MulAssoc(Pow2(c + 8), Pow2(a - c - 8), v);
    MulAssoc(Pow2(c + 8), Pow2(b - c - 8), v);
    Spread3(Pow2(c + 8), Pow2(b - c - 8) * v, Pow2(a - c - 8) * v);
    Collect3(v, Pow2(a), Pow2(b), Pow2(c));
  }

  lemma Spread3(p: int, x: int, y: int)
    ensures p * (x + y) == p * x + p * y
  {
  }

  lemma Collect3(v: int, x: int, y: int, z: int)
    ensures v * (x + y + z) == x * v + y * v + z * v
  {
  }

  /** (s ^ (s << 6)) & 0xFF */
  function LowOf(s: Byte): Word {
    And(Xor(Widen(s), Shl(Widen(s), 6)), Widen(Spread(true)[..8]))
  }

  /** What the first form adds to the shifted register. */
  function ShiftedSum(low: Word): Word {
    var a := Mul(low, Pow2(23) + Pow2(14) + Pow2(2));
    Xor(Xor(Xor(Xor(Xor(Xor(Mul(low, Pow2(24) + Pow2(16) + Pow2(8)), a), Shr(a, 1)), Mul(low, Pow2(20) + Pow2(12))),
      Shl(low, 19)), Shl(low, 17)), Shr(low, 2))
  }

  /** The fourteen shifts of the low byte that meet at bit i. */
  predicate ShiftTerms(low: Word, i: nat) {
    ((((((((L(low, i - 24) != L(low, i - 16)) != L(low, i - 8)) != ((L(low, i - 23) != L(low, i - 14)) != L(low, i - 2)))
      != ((L(low, i - 22) != L(low, i - 13)) != L(low, i - 1)))
      != (L(low, i - 20) != L(low, i - 12))) != L(low, i - 19)) != L(low, i - 17)) != L(low, i + 2))
  }

  lemma SevenSum(a: Word, b: Word, c: Word, d: Word, e: Word, f: Word, g: Word, i: nat)
    requires i < 32
    ensures Xor(Xor(Xor(Xor(Xor(Xor(a, b), c), d), e), f), g)[i] ==
      ((((((a[i] != b[i]) != c[i]) != d[i]) != e[i]) != f[i]) != g[i])
  {
  }

  lemma ShiftedBit(low: Word, i: nat)
    requires Small(low) && i < 32
    ensures Shl(low, 19)[i] == L(low, i - 19) && Shl(low, 17)[i] == L(low, i - 17) && Shr(low, 2)[i] == L(low, i + 2)
  {
  }

  lemma ShiftedSumBit(low: Word, i: nat)
    requires Small(low) && i < 32
    ensures ShiftedSum(low)[i] == ShiftTerms(low, i)
  {
    hide Mul, Xor, TwoCopies, ThreeCopies, Pow2, Shl, Shr;
    MulThree(low, 24, 16, 8);
    MulThree(low, 23, 14, 2);
    MulTwo(low, 20, 12);
    var a := ThreeCopies(low, 23, 14, 2);
    SevenSum(ThreeCopies(low, 24, 16, 8), a, Shr(a, 1), TwoCopies(low, 20, 12), Shl(low, 19), Shl(low, 17), Shr(low, 2),
      i);
    ShiftedBit(low, i);
  }

  ghost predicate PolynomialKnown() {
    forall k: nat {:trigger P(k)} :: P(k) <==> k in {5, 8, 9, 15, 19, 20, 21, 23, 24, 26, 27, 29, 30, 31}
  }

  /** The shifts of the code meet bit i exactly where the polynomial has the
      bits that the feedback folds in there. */
  lemma ShiftsAreParity(low: Word, i: nat)
    requires PolynomialKnown() && i < 32
    ensures ShiftTerms(low, i) == Parity(low[..8], i)
  {
    hide Parity, P;
    ParityEight(low[..8], i);
    // one case per bit: the positions are then literals
    if i == 0 {} else if i == 1 {} else if i == 2 {} else if i == 3 {} else if i == 4 {} else if i == 5 {}
    else if i == 6 {} else if i == 7 {} else if i == 8 {} else if i == 9 {} else if i == 10 {} else if i == 11 {}
    else if i == 12 {} else if i == 13 {} else if i == 14 {} else if i == 15 {} else if i == 16 {} else if i == 17 {}
    else if i == 18 {} else if i == 19 {} else if i == 20 {} else if i == 21 {} else if i == 22 {} else if i == 23 {}
    else if i == 24 {} else if i == 25 {} else if i == 26 {} else if i == 27 {} else if i == 28 {} else if i == 29 {}
    else if i == 30 {}
  }

  lemma LowIsFeedback(crc: Word, b: Byte)
    ensures Small(LowOf(XorByte(LowByte(crc), b)))
    ensures LowOf(XorByte(LowByte(crc), b))[..8] == Feedback(Xor(crc, Widen(b)))
  {
  }

  lemma ShiftedSumIs(low: Word)
    requires Small(low)
    ensures ShiftedSum(low) == Folded(low[..8])
  {
    hide ShiftedSum, Folded, Parity, ShiftTerms, Small;
    PolynomialBits();
    forall i | 0 <= i < 32 ensures ShiftedSum(low)[i] == Folded(low[..8])[i] {
      ShiftedSumBit(low, i);
      ShiftsAreParity(low, i);
      FoldedBit(low[..8], i);
    }
  }

  lemma ShiftedStep(crc: Word, b: Byte)
    ensures CRC.Feed(crc, b) == Xor(Shr(crc, 8), ShiftedSum(LowOf(XorByte(LowByte(crc), b))))
  {
    hide ShiftedSum, Folded, LowOf, Feedback, Small, Shr;
    var x := Xor(crc, Widen(b));
    EightApart(x);
    LowIsFeedback(crc, b);
    ShiftedSumIs(LowOf(XorByte(LowByte(crc), b)));
    MixedByte(crc, b);
  }

  method Tableless(data: seq<Byte>, previous: Word) returns (r: Word)
    ensures r == Crc(data, previous)
  {
    hide ShiftedSum, LowOf, Xor, Shr, Not, Register.Feed;
    var init := Not(previous);
    var crc := init;
    var i := 0;
    while i < |data|
      invariant i <= |data|
      invariant crc == Seen(init, data, i)
    {
      SeenByte(init, data, i);
      ShiftedStep(crc, data[i]);
      var s := XorByte(LowByte(crc), data[i]);
      crc := Xor(Shr(crc, 8), ShiftedSum(LowOf(s)));
      i := i + 1;
    }
    assert data[..i] == data;
    r := Not(crc);
  }
}
