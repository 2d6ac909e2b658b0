/** bzip2's checksum: the most significant bit first, one table lookup a byte. */
module BzCrc {
  import opened Arithmetic
  import opened Iteration
  import opened Words
  import opened Crc32Spec
  import Rotations
  import opened Checksums
  import opened StreamFormat

  type UChar = Rotations.Byte

  /** An unsigned char as its bits. */
  function Bits8(c: int): Words.Byte {
    seq(8, i requires 0 <= i => c >= 0 && Bit(c, i))
  }

  const POLYNOMIAL_MSB: Word := Hex([0x0, 0x4, 0xC, 0x1, 0x1, 0xD, 0xB, 0x7])

  /** One bit, most significant first. */
  function StepMsb(crc: Word): Word {
    Xor(Shl(crc, 1), if crc[31] then POLYNOMIAL_MSB else ZERO)
  }

  /** BZ2_crc32Table[i] */
  function Table(i: Words.Byte): Word {
    Iter(StepMsb, 8, Shl(Widen(i), 24))
  }

  /** BZ_UPDATE_CRC */
  function Update(crc: Word, c: UChar): Word {
    Xor(Shl(crc, 8), Table(XorByte(LowByte(Shr(crc, 24)), Bits8(c))))
  }

  // ----- what the table stands for -----------------------------------------

  lemma StepMsbLinear(a: Word, b: Word)
    ensures StepMsb(Xor(a, b)) == Xor(StepMsb(a), StepMsb(b))
  {
    ShlXor(a, b, 1);
    var p, q := if a[31] then POLYNOMIAL_MSB else ZERO, if b[31] then POLYNOMIAL_MSB else ZERO;
    var r := if a[31] != b[31] then POLYNOMIAL_MSB else ZERO;
    XorSelf(POLYNOMIAL_MSB);
    XorZero(POLYNOMIAL_MSB);
    XorZero(ZERO);
    assert r == Xor(p, q);
    FourTerms(Shl(a, 1), Shl(b, 1), p, q);
  }

  lemma FourTerms(a: Word, b: Word, p: Word, q: Word)
    ensures Xor(Xor(a, b), Xor(p, q)) == Xor(Xor(a, p), Xor(b, q))
  {
  }

  lemma {:induction false} StepsMsbLinear(n: nat, a: Word, b: Word)
    ensures Iter(StepMsb, n, Xor(a, b)) == Xor(Iter(StepMsb, n, a), Iter(StepMsb, n, b))
  {
    hide StepMsb, Xor;
    if n > 0 {
      StepMsbLinear(a, b);
      StepsMsbLinear(n - 1, StepMsb(a), StepMsb(b));
    }
  }

  lemma ShiftsOnce(w: Word)
    requires !w[31]
    ensures StepMsb(w) == Shl(w, 1)
  {
    XorZero(Shl(w, 1));
  }

  lemma ShiftTwice(w: Word, n: nat)
    requires 0 < n <= 32
    ensures Shl(Shl(w, 1), n - 1) == Shl(w, n) && Shl(w, 0) == w
  {
  }

  /** While the top bits are clear, a step only shifts. */
  lemma {:induction false} ShiftsUp(w: Word, n: nat)
    requires n <= 32 && forall i :: 32 - n <= i < 32 ==> !w[i]
    ensures Iter(StepMsb, n, w) == Shl(w, n)
    decreases n
  {
    hide StepMsb, Shl;
    ShiftTwice(w, if n == 0 then 1 else n);
    if n > 0 {
      ShiftsOnce(w);
      ShiftedClear(w, n);
      ShiftsUp(Shl(w, 1), n - 1);
    }
  }

  lemma ShiftedClear(w: Word, n: nat)
    requires 0 < n <= 32 && forall i :: 32 - n <= i < 32 ==> !w[i]
    ensures forall i :: 32 - (n - 1) <= i < 32 ==> !Shl(w, 1)[i]
  {
  }

  /** The low 24 bits of a word. */
  function Low24(w: Word): (c: Word)
    ensures forall i :: 0 <= i < 32 ==> c[i] == (i < 24 && w[i])
  {
    w[..24] + Zeros(8)
  }

  lemma TopByteMixed(crc: Word, c: Words.Byte)
    ensures Xor(crc, Shl(Widen(c), 24)) == Xor(Low24(crc), Shl(Widen(XorByte(LowByte(Shr(crc, 24)), c)), 24))
    ensures Shl(Low24(crc), 8) == Shl(crc, 8)
  {
  }

  lemma LookupIsEightSteps(crc: Word, b: Words.Byte)
    ensures Xor(Shl(crc, 8), Table(XorByte(LowByte(Shr(crc, 24)), b))) == Iter(StepMsb, 8, Xor(crc, Shl(Widen(b), 24)))
  {
    hide StepMsb, Iter, Xor, Shl, Widen, XorByte, LowByte, Shr, Low24;
    var top := XorByte(LowByte(Shr(crc, 24)), b);
    TopByteMixed(crc, b);
    StepsMsbLinear(8, Low24(crc), Shl(Widen(top), 24));
    Low24Clear(crc);
    ShiftsUp(Low24(crc), 8);
  }

  lemma Low24Clear(crc: Word)
    ensures forall i :: 24 <= i < 32 ==> !Low24(crc)[i]
  {
  }

  /** One table lookup does the work of eight single-bit steps, most significant
      bit first. */
  lemma UpdateIsEightSteps(crc: Word, c: UChar)
    ensures Update(crc, c) == Iter(StepMsb, 8, Xor(crc, Shl(Widen(Bits8(c)), 24)))
  {
    hide StepMsb, Bits8, Iter, Xor, Shl, Widen, XorByte, LowByte, Shr, Table;
    LookupIsEightSteps(crc, Bits8(c));
  }

  const INITIAL: Word := Not(ZERO)

  /** The register as the coders use it: a start and a step per byte. */
  function Bz(): (sum: Checksum<Word>)
    ensures sum.initial == INITIAL && sum.update == Update
  {
    Checksum(INITIAL, Update)
  }

  /** The combined checksum: rotate left by one, add the block's checksum. */
  function Combine(combined: Word, blockCrc: Word): Word {
    Xor(RotateLeft(combined), blockCrc)
  }

  /** (x << 1) | (x >> 31) */
  function RotateLeft(x: Word): Word {
    [x[31]] + x[..31]
  }

  /** bzip2's checksums: BZ_FINALISE_CRC complements the register. */
  function BzSumming(): (fmt: Summing<Word>)
    ensures fmt.sum == Bz() && fmt.finalise == Not && fmt.zero == ZERO && fmt.combine == Combine
      && forall w: Word :: fmt.word(w) == w
  {
    Summing(Bz(), Not, ZERO, Combine, (w: Word) => w)
  }
}
