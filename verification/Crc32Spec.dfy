/** The CRC-32 of section 8 of RFC 1952: the one-bit step on a 32-bit word, as
    a linear shift register. */
module Crc32Spec {
  import opened Iteration
  import opened Words
  import opened ShiftRegister

  /** Bit j of a hexadecimal digit. */
  predicate DigitBit(d: nat, j: nat) {
    if j == 0 then d % 2 == 1 else if j == 1 then d / 2 % 2 == 1 else if j == 2 then d / 4 % 2 == 1 else d / 8 % 2 == 1
  }

  /** The constant with these eight hexadecimal digits, leading digit first. */
  function Hex(digits: seq<nat>): Word
    requires |digits| == 8
  {
    seq(32, i requires 0 <= i < 32 => DigitBit(digits[7 - i / 4], i % 4))
  }

  const POLYNOMIAL: Word := Hex([0xE, 0xD, 0xB, 0x8, 0x8, 0x3, 0x2, 0x0])

  /** One bit: shift right, fold the polynomial in when a one falls out. */
  function Step(crc: Word): Word {
    Xor(Shr(crc, 1), if crc[0] then POLYNOMIAL else ZERO)
  }

  /** A byte k bits up. */
  function Place(b: Byte, k: nat): Word {
    if k <= 32 then Shl(Widen(b), k) else ZERO
  }

  function High(w: Word): Word {
    Shr(w, 8)
  }

  /** (w >> 8j) & 0xFF */
  function ByteAt(w: Word, j: nat): Byte {
    if j < 4 then LowByte(Shr(w, 8 * j)) else Zeros(8)
  }

  /** The little-endian load of four bytes. */
  function Assemble(b0: Byte, b1: Byte, b2: Byte, b3: Byte): Word {
    var (s0: seq<bool>, s1: seq<bool>, s2: seq<bool>, s3: seq<bool>) := (b0, b1, b2, b3);
    s0 + s1 + s2 + s3
  }

  const CRC: Register<Word, Byte> := Register(Step, Xor, Widen, Place, High, LowByte, ByteAt, Assemble)

  /** The checksum: the register is complemented on the way in and out. */
  function Crc(data: seq<Byte>, previous: Word): Word {
    Not(CRC.Run(Not(previous), data))
  }

  // ----- the laws ----------------------------------------------------------

  lemma StepLinear(a: Word, b: Word)
    ensures Step(Xor(a, b)) == Xor(Step(a), Step(b))
  {
  }

  /** n steps on a register whose n low bits are clear only shift. */
  lemma {:induction false} StepsShift(n: nat, x: Word)
    requires n <= 32
    requires forall i :: 0 <= i < n ==> !x[i]
    ensures Iter(Step, n, x) == Shr(x, n)
  {
    if n == 0 {
      assert Shr(x, 0) == x;
    } else {
      assert Step(x) == Shr(x, 1);
      StepsShift(n - 1, Shr(x, 1));
      assert Shr(Shr(x, 1), n - 1) == Shr(x, n);
    }
  }

  lemma StepsLinear(n: nat, a: Word, b: Word)
    ensures Iter(Step, n, Xor(a, b)) == Xor(Iter(Step, n, a), Iter(Step, n, b))
  {
    forall x, y ensures Step(Xor(x, y)) == Xor(Step(x), Step(y)) {
      StepLinear(x, y);
    }
    IterLinear(Step, Xor, n, a, b);
  }

  /** The n low bits of x, the others cleared. */
  function LowBits(x: Word, n: nat): Word
    requires n <= 32
  {
    x[..n] + Zeros(32 - n)
  }

  function HighBits(x: Word, n: nat): (h: Word)
    requires n <= 32
    ensures forall i :: 0 <= i < n ==> !h[i]
    ensures x == Xor(h, LowBits(x, n))
    ensures Shr(h, n) == Shr(x, n)
  {
    Zeros(n) + x[n..]
  }

  /** n steps: the high bits move down, the low bits are worked off. */
  lemma StepsSplit(n: nat, x: Word)
    requires n <= 32
    ensures Iter(Step, n, x) == Xor(Shr(x, n), Iter(Step, n, LowBits(x, n)))
  {
    var hi, lo := HighBits(x, n), LowBits(x, n);
    StepsLinear(n, hi, lo);
    StepsShift(n, hi);
  }

  /** A byte waiting k bits up reaches the bottom after k steps. */
  lemma WaitingByte(k: nat, b: Byte)
    requires k <= 24
    ensures Iter(Step, k, Place(b, k)) == Widen(b)
  {
    StepsShift(k, Place(b, k));
    assert Shr(Shl(Widen(b), k), k) == Widen(b);
  }

  lemma WordIsBytes(w: Word)
    ensures w ==
      Xor(Xor(Xor(Place(ByteAt(w, 3), 24), Place(ByteAt(w, 2), 16)), Place(ByteAt(w, 1), 8)), Place(ByteAt(w, 0), 0))
  {
  }

  lemma LoadIsShifted(w: Word, b0: Byte, b1: Byte, b2: Byte, b3: Byte)
    ensures Xor(Assemble(b0, b1, b2, b3), w) ==
      Xor(Xor(Xor(Xor(w, Widen(b0)), Place(b1, 8)), Place(b2, 16)), Place(b3, 24))
  {
  }

  lemma EightStepsSplit(w: Word)
    ensures Iter(Step, 8, w) == Xor(High(w), Iter(Step, 8, Widen(LowByte(w))))
  {
    StepsSplit(8, w);
    assert LowBits(w, 8) == Widen(LowByte(w));
  }

  lemma CrcLinear()
    ensures CRC.LinearLaw()
  {
    forall a, b ensures Step(Xor(a, b)) == Xor(Step(a), Step(b)) {
      StepLinear(a, b);
    }
  }

  lemma CrcWaiting()
    ensures CRC.WaitingLaw()
  {
    forall b, k | k <= 24 ensures Iter(Step, k, Place(b, k)) == Widen(b) {
      WaitingByte(k, b);
    }
  }

  lemma CrcSplit()
    ensures CRC.SplitLaw()
  {
    hide Iter, Xor, Step, Widen;
    forall w ensures Iter(Step, 8, w) == Xor(High(w), Iter(Step, 8, Widen(LowByte(w)))) {
      EightStepsSplit(w);
    }
  }

  lemma CrcBytes()
    ensures CRC.BytesLaw()
  {
    forall w ensures w == Xor(Xor(Xor(Place(ByteAt(w, 3), 24), Place(ByteAt(w, 2), 16)), Place(ByteAt(w, 1), 8)), Place(ByteAt(w, 0), 0)) {
      WordIsBytes(w);
    }
  }

  lemma CrcLoad()
    ensures CRC.LoadLaw()
  {
    forall w, b0, b1, b2, b3
      ensures Xor(Assemble(b0, b1, b2, b3), w) ==
        Xor(Xor(Xor(Xor(w, Widen(b0)), Place(b1, 8)), Place(b2, 16)), Place(b3, 24))
    {
      LoadIsShifted(w, b0, b1, b2, b3);
    }
  }

  lemma CrcChain()
    ensures CRC.ChainLaw()
  {
    forall acc, a, b, c, d ensures Xor(Xor(Xor(Xor(acc, a), b), c), d) == Xor(acc, Xor(Xor(Xor(a, b), c), d)) {
      CutChain(acc, a, b, c, d);
    }
    forall a, b, c, d ensures Xor(a, Xor(b, Xor(c, d))) == Xor(Xor(Xor(a, b), c), d) {
      FlattenSum(a, b, c, d);
    }
  }

  /** The CRC register obeys the laws of a linear shift register. */
  lemma CrcLaws()
    ensures CRC.Laws()
  {
    CrcLinear();
    CrcWaiting();
    CrcSplit();
    CrcBytes();
    CrcLoad();
    CrcChain();
  }

  /** Chunked use: a checksum resumed from a previous one covers the whole. */
  lemma CrcConcat(a: seq<Byte>, b: seq<Byte>, previous: Word)
    ensures Crc(b, Crc(a, previous)) == Crc(a + b, previous)
  {
    FoldConcat(CRC.Feed, Not(previous), a, b);
    NotNot(CRC.Run(Not(previous), a));
  }
}
