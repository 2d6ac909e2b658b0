/** What a compressed stream consists of, block by block. */
module StreamFormat {
  import opened Checksums
  import opened BitStream
  import opened Rotations
  import opened Rle
  import Words

  /** A closed block: the runs it holds, and its coded body. */
  datatype Closed = Closed(runs: seq<Pair>, body: seq<bool>)

  const BZ_HDR_B := 0x42
  const BZ_HDR_Z := 0x5a
  const BZ_HDR_h := 0x68
  const BZ_HDR_0 := 0x30

  function Header(level: nat): seq<bool> {
    Low(BZ_HDR_B, 8) + Low(BZ_HDR_Z, 8) + Low(BZ_HDR_h, 8) + Low(BZ_HDR_0 + level, 8)
  }

  function BlockMagic(): seq<bool> {
    Low(0x31, 8) + Low(0x41, 8) + Low(0x59, 8) + Low(0x26, 8) + Low(0x53, 8) + Low(0x59, 8)
  }

  function EndMagic(): seq<bool> {
    Low(0x17, 8) + Low(0x72, 8) + Low(0x45, 8) + Low(0x38, 8) + Low(0x50, 8) + Low(0x90, 8)
  }

  /** The bytes that went into a block, the checksum of all blocks. */
  datatype Summing<!R> = Summing(sum: Checksum<R>, finalise: R -> R, zero: R, combine: (R, R) -> R,
      word: R -> Words.Word) {
    function Crc(bytes: seq<Byte>): R {
      finalise(sum.Over(bytes))
    }

    /** The combined checksum; an empty block does not take part. */
    function Combined(closed: seq<Closed>): R {
      if closed == [] then zero
      else
        var front, last := closed[..|closed| - 1], closed[|closed| - 1];
        if last.runs == [] then Combined(front) else combine(Combined(front), Crc(Expand(last.runs)))
    }

    /** One block in the stream: nothing at all if it is empty. */
    function BlockBits(c: Closed): seq<bool> {
      if c.runs == [] then [] else BlockMagic() + Top(word(Crc(Expand(c.runs))), 32) + c.body
    }

    function Blocks(closed: seq<Closed>): seq<bool> {
      if closed == [] then [] else Blocks(closed[..|closed| - 1]) + BlockBits(closed[|closed| - 1])
    }

    function Trailer(closed: seq<Closed>): seq<bool> {
      EndMagic() + Top(word(Combined(closed)), 32)
    }

    /** Everything written once these blocks are closed. */
    function Emitted(level: nat, closed: seq<Closed>, finished: bool): seq<bool> {
      if closed == [] then [] else Header(level) + Blocks(closed) + if finished then Trailer(closed) else []
    }

    lemma CombinedMore(closed: seq<Closed>, c: Closed)
      ensures Combined(closed + [c]) ==
        if c.runs == [] then Combined(closed) else combine(Combined(closed), Crc(Expand(c.runs)))
    {
      assert (closed + [c])[..|closed|] == closed;
    }

    lemma EmittedMore(level: nat, closed: seq<Closed>, c: Closed)
      ensures Emitted(level, closed + [c], false) ==
        (if closed == [] then Header(level) else Emitted(level, closed, false)) + BlockBits(c)
      ensures Emitted(level, closed + [c], true) == Emitted(level, closed + [c], false) + Trailer(closed + [c])
    {
      hide Header, BlockBits, Trailer;
      assert (closed + [c])[..|closed|] == closed;
      Join(Header(level), Blocks(closed), BlockBits(c));
    }
  }

  lemma Join<T>(a: seq<T>, b: seq<T>, c: seq<T>)
    ensures a + (b + c) + [] == a + b + [] + c
    ensures b == [] ==> a + (b + c) + [] == a + c
  {
    if b == [] {
      assert b + c == c;
    }
  }

  /** The bytes that went into these blocks. */
  function Contents(closed: seq<Closed>): seq<Byte> {
    if closed == [] then [] else Contents(closed[..|closed| - 1]) + Expand(closed[|closed| - 1].runs)
  }

  lemma ContentsMore(closed: seq<Closed>, c: Closed)
    ensures Contents(closed + [c]) == Contents(closed) + Expand(c.runs)
  {
    assert (closed + [c])[..|closed|] == closed;
  }
}
