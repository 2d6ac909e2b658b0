/** bzip2's checksum is the CRC-32 of RFC 1952 seen in a mirror: the bits of
    every byte, and of the result, in reverse. */
module BzMirror {
  import opened Arithmetic
  import opened Iteration
  import opened Words
  import opened Crc32Spec
  import opened BzCrc

  /** The bits of a word in reverse. */
  function Mirror(w: Word): (m: Word)
    ensures forall i :: 0 <= i < 32 ==> m[i] == w[31 - i]
  {
    seq(32, i requires 0 <= i < 32 => w[31 - i])
  }

  /** The bits of an unsigned char in reverse. */
  function MirrorByte(c: UChar): (m: Words.Byte)
    ensures forall i :: 0 <= i < 8 ==> m[i] == Bit(c, 7 - i)
  {
    seq(8, i requires 0 <= i < 8 => Bit(c, 7 - i))
  }

  function MirrorAll(bytes: seq<UChar>): (m: seq<Words.Byte>)
    ensures |m| == |bytes| && forall i :: 0 <= i < |bytes| ==> m[i] == MirrorByte(bytes[i])
  {
    seq(|bytes|, i requires 0 <= i < |bytes| => MirrorByte(bytes[i]))
  }

  lemma LowQuarter(i: nat)
    requires 0 <= i < 8
    ensures POLYNOMIAL_MSB[31 - i] == POLYNOMIAL[i]
  {
    assert POLYNOMIAL_MSB[31] == POLYNOMIAL[0] && POLYNOMIAL_MSB[30] == POLYNOMIAL[1];
    assert POLYNOMIAL_MSB[29] == POLYNOMIAL[2] && POLYNOMIAL_MSB[28] == POLYNOMIAL[3];
    assert POLYNOMIAL_MSB[27] == POLYNOMIAL[4] && POLYNOMIAL_MSB[26] == POLYNOMIAL[5];
    assert POLYNOMIAL_MSB[25] == POLYNOMIAL[6] && POLYNOMIAL_MSB[24] == POLYNOMIAL[7];
    hide POLYNOMIAL, POLYNOMIAL_MSB;
    assert i == 0 || i == 1 || i == 2 || i == 3 || i == 4 || i == 5 || i == 6 || i == 7;
  }

  lemma SecondQuarter(i: nat)
    requires 8 <= i < 16
    ensures POLYNOMIAL_MSB[31 - i] == POLYNOMIAL[i]
  {
    assert POLYNOMIAL_MSB[23] == POLYNOMIAL[8] && POLYNOMIAL_MSB[22] == POLYNOMIAL[9];
    assert POLYNOMIAL_MSB[21] == POLYNOMIAL[10] && POLYNOMIAL_MSB[20] == POLYNOMIAL[11];
    assert POLYNOMIAL_MSB[19] == POLYNOMIAL[12] && POLYNOMIAL_MSB[18] == POLYNOMIAL[13];
    assert POLYNOMIAL_MSB[17] == POLYNOMIAL[14] && POLYNOMIAL_MSB[16] == POLYNOMIAL[15];
    hide POLYNOMIAL, POLYNOMIAL_MSB;
    assert i == 8 || i == 9 || i == 10 || i == 11 || i == 12 || i == 13 || i == 14 || i == 15;
  }

  lemma ThirdQuarter(i: nat)
    requires 16 <= i < 24
    ensures POLYNOMIAL_MSB[31 - i] == POLYNOMIAL[i]
  {
    assert POLYNOMIAL_MSB[15] == POLYNOMIAL[16] && POLYNOMIAL_MSB[14] == POLYNOMIAL[17];
    assert POLYNOMIAL_MSB[13] == POLYNOMIAL[18] && POLYNOMIAL_MSB[12] == POLYNOMIAL[19];
    assert POLYNOMIAL_MSB[11] == POLYNOMIAL[20] && POLYNOMIAL_MSB[10] == POLYNOMIAL[21];
    assert POLYNOMIAL_MSB[9] == POLYNOMIAL[22] && POLYNOMIAL_MSB[8] == POLYNOMIAL[23];
    hide POLYNOMIAL, POLYNOMIAL_MSB;
    assert i == 16 || i == 17 || i == 18 || i == 19 || i == 20 || i == 21 || i == 22 || i == 23;
  }

  lemma TopQuarter(i: nat)
    requires 24 <= i < 32
    ensures POLYNOMIAL_MSB[31 - i] == POLYNOMIAL[i]
  {
    assert POLYNOMIAL_MSB[7] == POLYNOMIAL[24] && POLYNOMIAL_MSB[6] == POLYNOMIAL[25];
    assert POLYNOMIAL_MSB[5] == POLYNOMIAL[26] && POLYNOMIAL_MSB[4] == POLYNOMIAL[27];
    assert POLYNOMIAL_MSB[3] == POLYNOMIAL[28] && POLYNOMIAL_MSB[2] == POLYNOMIAL[29];
    assert POLYNOMIAL_MSB[1] == POLYNOMIAL[30] && POLYNOMIAL_MSB[0] == POLYNOMIAL[31];
    hide POLYNOMIAL, POLYNOMIAL_MSB;
    assert i == 24 || i == 25 || i == 26 || i == 27 || i == 28 || i == 29 || i == 30 || i == 31;
  }

  lemma PolynomialMirrored()
    ensures Mirror(POLYNOMIAL_MSB) == POLYNOMIAL
  {
    hide POLYNOMIAL, POLYNOMIAL_MSB;
    forall i | 0 <= i < 32 ensures POLYNOMIAL_MSB[31 - i] == POLYNOMIAL[i] {
      if i < 8 {
        LowQuarter(i);
      } else if i < 16 {
        SecondQuarter(i);
      } else if i < 24 {
        ThirdQuarter(i);
      } else {
        TopQuarter(i);
      }
    }
  }

  lemma InitialMirrored()
    ensures forall i :: 0 <= i < 32 ==> INITIAL[i]
    ensures Mirror(INITIAL) == Not(ZERO)
  {
  }

  lemma SumMirrored(a: Word, b: Word)
    ensures Mirror(Xor(a, b)) == Xor(Mirror(a), Mirror(b))
  {
  }

  lemma ShiftMirrored(w: Word)
    ensures Mirror(Shl(w, 1)) == Shr(Mirror(w), 1) && Mirror(ZERO) == ZERO
  {
  }

  lemma StepMirrored(w: Word)
    ensures Mirror(StepMsb(w)) == Step(Mirror(w))
  {
    PolynomialMirrored();
    ShiftMirrored(w);
    SumMirrored(Shl(w, 1), if w[31] then POLYNOMIAL_MSB else ZERO);
    assert Mirror(w)[0] == w[31];
    hide Mirror, Shl, Shr, Xor, POLYNOMIAL, POLYNOMIAL_MSB;
  }

  lemma {:induction false} StepsMirrored(n: nat, w: Word)
    ensures Mirror(Iter(StepMsb, n, w)) == Iter(Step, n, Mirror(w))
  {
    hide StepMsb, Step, Mirror;
    if n > 0 {
      StepMirrored(w);
      StepsMirrored(n - 1, StepMsb(w));
    }
  }

  lemma AddedMirrored(crc: Word, c: UChar)
    ensures Mirror(Xor(crc, Shl(Widen(Bits8(c)), 24))) == Xor(Mirror(crc), Widen(MirrorByte(c)))
  {
    hide Bit;
    var a, b := Mirror(Xor(crc, Shl(Widen(Bits8(c)), 24))), Xor(Mirror(crc), Widen(MirrorByte(c)));
    forall i | 0 <= i < 32 ensures a[i] == b[i] {
      if i < 8 {
        assert Bits8(c)[7 - i] == Bit(c, 7 - i);
      }
    }
  }

  /** One byte. */
  lemma UpdateMirrored(crc: Word, c: UChar)
    ensures Mirror(Update(crc, c)) == CRC.Feed(Mirror(crc), MirrorByte(c))
  {
    hide Update, Mirror, MirrorByte, StepMsb, Step, Iter, Xor, Shl, Widen, Bits8;
    UpdateIsEightSteps(crc, c);
    AddedMirrored(crc, c);
    StepsMirrored(8, Xor(crc, Shl(Widen(Bits8(c)), 24)));
  }

  lemma {:induction false} RunMirrored(crc: Word, bytes: seq<UChar>)
    ensures Mirror(Fold(Update, crc, bytes)) == CRC.Run(Mirror(crc), MirrorAll(bytes))
    decreases |bytes|
  {
    hide *;
    if bytes == [] {
      NothingRun(crc);
    } else {
      UpdateMirrored(crc, bytes[0]);
      RunMirrored(Update(crc, bytes[0]), bytes[1..]);
      OneRun(crc, bytes);
    }
  }

  lemma NothingRun(crc: Word)
    ensures Fold(Update, crc, []) == crc && CRC.Run(Mirror(crc), MirrorAll([])) == Mirror(crc)
  {
  }

  lemma OneRun(crc: Word, bytes: seq<UChar>)
    requires bytes != []
    ensures Fold(Update, crc, bytes) == Fold(Update, Update(crc, bytes[0]), bytes[1..])
    ensures CRC.Run(Mirror(crc), MirrorAll(bytes)) ==
      CRC.Run(CRC.Feed(Mirror(crc), MirrorByte(bytes[0])), MirrorAll(bytes[1..]))
  {
    hide Update, Mirror, MirrorByte;
    assert MirrorAll(bytes)[1..] == MirrorAll(bytes[1..]);
  }

  lemma NotMirrored(w: Word)
    ensures Mirror(Not(w)) == Not(Mirror(w))
  {
  }

  /** A block's checksum, mirrored, is the CRC-32 of its mirrored bytes. */
  lemma CrcMirrored(bytes: seq<UChar>)
    ensures Mirror(BzSumming().Crc(bytes)) == Crc(MirrorAll(bytes), ZERO)
  {
    hide Update, Mirror, Not;
    RunMirrored(INITIAL, bytes);
    InitialMirrored();
    NotMirrored(Fold(Update, INITIAL, bytes));
  }
}
