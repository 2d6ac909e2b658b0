/** The ten ways lib/archive/crc32.cc computes one checksum. */
module Crc32 {
  import opened Iteration
  import opened Words
  import opened ShiftRegister
  import opened Crc32Spec

  /** The part of the message already read. */
  function Seen(init: Word, data: seq<Byte>, i: nat): Word
    requires i <= |data|
  {
    CRC.Run(init, data[..i])
  }

  lemma SeenByte(init: Word, data: seq<Byte>, i: nat)
    requires i < |data|
    ensures Seen(init, data, i + 1) == CRC.Feed(Seen(init, data, i), data[i])
  {
    assert data[..i + 1] == data[..i] + [data[i]];
    FoldAppend(CRC.Feed, init, data[..i], data[i]);
  }

  // ----- one bit at a time -------------------------------------------------

  method Bitwise(data: seq<Byte>, previous: Word) returns (r: Word)
    ensures r == Crc(data, previous)
  {
    SeenEnds(data, previous);
    hide *;
    var init := Not(previous);
    var crc := init;
    var i := 0;
    while i < |data|
      invariant i <= |data|
      invariant crc == Seen(init, data, i)
    {
      SeenByte(init, data, i);
      FeedIs(crc, data[i]);
      crc := EightTimes(Xor(crc, Widen(data[i])));
      i := i + 1;
    }
    r := Not(crc);
  }

  /** Nothing read, and all of it. */
  lemma SeenEnds(data: seq<Byte>, previous: Word)
    ensures Seen(Not(previous), data, 0) == Not(previous)
    ensures Not(Seen(Not(previous), data, |data|)) == Crc(data, previous)
  {
    assert data[..0] == [] && data[..|data|] == data;
  }

  lemma FeedIs(crc: Word, b: Byte)
    ensures CRC.Feed(crc, b) == CRC.Steps(8, Xor(crc, Widen(b)))
  {
  }

  lemma BranchFree(crc: Word)
    ensures Xor(Shr(crc, 1), And(Spread(crc[0]), POLYNOMIAL)) == Step(crc)
  {
  }

  /** The inner loop: eight branch-free one-bit steps. */
  method EightTimes(x: Word) returns (crc: Word)
    ensures crc == CRC.Steps(8, x)
  {
    crc := x;
    var j := 0;
    while j < 8
      invariant j <= 8
      invariant crc == CRC.Steps(j, x)
    {
      BranchFree(crc);
      CRC.StepsAdd(j, 1, x);
      crc := Xor(Shr(crc, 1), And(Spread(crc[0]), POLYNOMIAL));
      j := j + 1;
    }
  }

  // ----- half a byte at a time ---------------------------------------------

  /** Crc32Lookup16[i], which is Crc32Lookup[0][16 * i]. */
  function Lookup16(nibble: seq<bool>): Word
    requires |nibble| == 4
  {
    CRC.Lookup(0, Zeros(4) + nibble)
  }

  /** The nibble as the table sees it, four bits up. */
  function Raised(x: Word): (up: Word)
    ensures Shr(up, 4) == LowBits(x, 4)
    ensures forall i :: 0 <= i < 4 ==> !up[i]
  {
    Widen(Zeros(4) + x[..4])
  }

  lemma RaisedSteps(x: Word)
    ensures CRC.Steps(8, Raised(x)) == CRC.Steps(4, LowBits(x, 4))
  {
    var up := Raised(x);
    CRC.StepsAdd(4, 4, up);
    StepsShift(4, up);
  }

  lemma LookupNibble(x: Word)
    ensures Lookup16(x[..4]) == CRC.Steps(4, LowBits(x, 4))
  {
    RaisedSteps(x);
  }

  lemma FourSteps(x: Word)
    ensures CRC.Steps(4, x) == Xor(Shr(x, 4), Lookup16(x[..4]))
  {
    LookupNibble(x);
    StepsSplit(4, x);
  }

  lemma FirstNibble(t: Word, crc: Word, b: Byte)
    ensures Xor(Xor(t, Shr(crc, 4)), Shr(Widen(b), 4)) == Xor(Shr(Xor(crc, Widen(b)), 4), t)
  {
  }

  lemma SecondNibble(t: Word, mid: Word, b: Byte)
    ensures Xor(Shr(Xor(mid, Shr(Widen(b), 4)), 4), t) == Xor(t, Shr(mid, 4))
  {
  }

  lemma HalfByteTwice(crc: Word, b: Byte, mid: Word)
    requires mid == Xor(Lookup16(Xor(crc, Widen(b))[..4]), Shr(crc, 4))
    ensures Xor(Lookup16(Xor(mid, Shr(Widen(b), 4))[..4]), Shr(mid, 4)) == CRC.Feed(crc, b)
  {
    var x := Xor(crc, Widen(b));
    var y := Xor(mid, Shr(Widen(b), 4));
    FourSteps(x);
    FirstNibble(Lookup16(x[..4]), crc, b);
    FourSteps(y);
    SecondNibble(Lookup16(y[..4]), mid, b);
    CRC.StepsAdd(4, 4, x);
  }

  method HalfByte(data: seq<Byte>, previous: Word) returns (r: Word)
    ensures r == Crc(data, previous)
  {
    var init := Not(previous);
    var crc := init;
    var i := 0;
    while i < |data|
      invariant i <= |data|
      invariant crc == Seen(init, data, i)
    {
      SeenByte(init, data, i);
      var b := data[i];
      var mid := Xor(Lookup16(Xor(crc, Widen(b))[..4]), Shr(crc, 4));
      HalfByteTwice(crc, b, mid);
      crc := Xor(Lookup16(Xor(mid, Shr(Widen(b), 4))[..4]), Shr(mid, 4));
      i := i + 1;
    }
    assert data[..i] == data;
    r := Not(crc);
  }

  // ----- one byte at a time ------------------------------------------------

  /** (crc & 0xFF) ^ b */
  function Index(crc: Word, b: Byte): Byte {
    XorByte(LowByte(crc), b)
  }

  lemma MixedByte(crc: Word, b: Byte)
    ensures High(Xor(crc, Widen(b))) == High(crc)
    ensures LowByte(Xor(crc, Widen(b))) == Index(crc, b)
  {
  }

  lemma CrcIndex()
    ensures CRC.IndexLaw(Index)
  {
    forall w, b ensures High(Xor(w, Widen(b))) == High(w) && LowByte(Xor(w, Widen(b))) == Index(w, b) {
      MixedByte(w, b);
    }
  }

  /** The standard algorithm from position i on; every slicing form ends with it. */
  method Tail(init: Word, data: seq<Byte>, i: nat, crc: Word) returns (r: Word)
    requires i <= |data| && crc == CRC.Run(init, data[..i])
    ensures r == Not(CRC.Run(init, data))
  {
    CrcLaws();
    CrcIndex();
    hide *;
    var last := CRC.ByByte(init, data, i, crc, Index);
    r := Not(last);
  }

  method OneByte(data: seq<Byte>, previous: Word) returns (r: Word)
    ensures r == Crc(data, previous)
  {
    assert data[..0] == [];
    r := Tail(Not(previous), data, 0, Not(previous));
  }

  // ----- slicing -----------------------------------------------------------

  method FourBytes(data: seq<Byte>, previous: Word) returns (r: Word)
    ensures r == Crc(data, previous)
  {
    CrcLaws();
    var crc, i := CRC.ByFour(Not(previous), data);
    r := Tail(Not(previous), data, i, crc);
  }

  method EightBytes(data: seq<Byte>, previous: Word) returns (r: Word)
    ensures r == Crc(data, previous)
  {
    CrcLaws();
    var crc, i := CRC.ByEight(Not(previous), data);
    r := Tail(Not(previous), data, i, crc);
  }

  method FourTimesEightBytes(data: seq<Byte>, previous: Word) returns (r: Word)
    ensures r == Crc(data, previous)
  {
    CrcLaws();
    var crc, i := CRC.ByFourTimesEight(Not(previous), data);
    r := Tail(Not(previous), data, i, crc);
  }

  method SixteenBytes(data: seq<Byte>, previous: Word) returns (r: Word)
    ensures r == Crc(data, previous)
  {
    CrcLaws();
    var crc, i := CRC.BySixteen(Not(previous), data, 0);
    r := Tail(Not(previous), data, i, crc);
  }

  /** As SixteenBytes, but the wide loop stops `ahead` bytes early so that the
      prefetch stays inside the message; the tail makes up for it. */
  method SixteenBytesPrefetch(data: seq<Byte>, previous: Word, ahead: nat) returns (r: Word)
    ensures r == Crc(data, previous)
  {
    CrcLaws();
    var crc, i := CRC.BySixteen(Not(previous), data, ahead);
    r := Tail(Not(previous), data, i, crc);
  }

  /** Whole-stream checksumming of an extracted file. A target of zero switches
      checking off. */
  class Summator {
    const target: Word
    var current: Word
    ghost var stream: seq<Byte>

    ghost predicate Consistent()
      reads this
    {
      current == if target == ZERO then ZERO else Crc(stream, ZERO)
    }

    constructor (val: Word)
      ensures Consistent() && target == val && stream == []
    {
      target := val;
      current := ZERO;
      stream := [];
      new;
      NotNot(ZERO);
    }

    method Update(data: seq<Byte>)
      requires Consistent()
      modifies this
      ensures Consistent()
      ensures stream == old(stream) + data
    {
      stream := stream + data;
      if target == ZERO {
        return;
      }
      CrcConcat(old(stream), data, ZERO);
      current := SixteenBytes(data, current);
    }

    /** Whatever the split into chunks: accepted exactly when there is no target
        or the checksum of the whole stream equals it. */
    predicate Valid()
      requires Consistent()
      reads this
      ensures Valid() <==> target == ZERO || Crc(stream, ZERO) == target
    {
      target == ZERO || current == target
    }
  }
}
