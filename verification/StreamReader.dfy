/** Reading a whole stream back: the decoder's order of reading and its checks,
    and the round trip through every run of the compressor. */
module StreamReader {
  import opened Sequences
  import opened BitStream
  import opened Rotations
  import opened Rle
  import opened SideInfo
  import opened BlockBody
  import opened BlockMeaning
  import opened StreamFormat
  import opened Encoders
  import Words

  /** The next six bytes. */
  predicate Six(s: seq<bool>, a: nat, b: nat, c: nat, d: nat, e: nat, f: nat)
    requires |s| >= 48
  {
    && ByteOf(s, 0) == a && ByteOf(s, 1) == b && ByteOf(s, 2) == c
    && ByteOf(s, 3) == d && ByteOf(s, 4) == e && ByteOf(s, 5) == f
  }

  /** The blocks up to the trailer; every checksum is checked. */
  ghost function ReadBlocks<R>(fmt: Summing<R>, level: nat, combined: R, s: seq<bool>): Option<seq<Byte>>
    decreases |s|
  {
    if |s| < 80 then None
    else if Six(s, 0x31, 0x41, 0x59, 0x26, 0x53, 0x59) then
      match ReadBlock(fmt, level, s[48..80], s[80..])
      case Bad => None
      case Parsed(bytes, rest) =>
        if |rest| >= |s| then None
        else
          match ReadBlocks(fmt, level, fmt.combine(combined, fmt.Crc(bytes)), rest)
          case None => None
          case Some(more) => Some(bytes + more)
    else if Six(s, 0x17, 0x72, 0x45, 0x38, 0x50, 0x90) && s[48..80] == Top(fmt.word(combined), 32) then Some([])
    else None
  }

  /** One block: its body, undone, with the checksum that was stored. No block may
      be longer, and no origin further on, than the header allows. */
  ghost function ReadBlock<R>(fmt: Summing<R>, level: nat, crc: seq<bool>, s: seq<bool>): Parsed<seq<Byte>> {
    match ReadBody(s)
    case Bad => Bad
    case Parsed(c, rest) =>
      if c.origPtr > 10 + 100000 * level then Bad
      else
        match DecodeBody(c)
        case None => Bad
        case Some(b) =>
          if |b| > 100000 * level || Corrupt(b, 0) || crc != Top(fmt.word(fmt.Crc(UnRle(b, 0))), 32) then Bad
          else Parsed(UnRle(b, 0), rest)
  }

  /** The three bytes "BZh", a digit from 1 to 9, then the blocks. */
  ghost function ReadStream<R>(fmt: Summing<R>, s: seq<bool>): Option<seq<Byte>> {
    if |s| < 32 || ByteOf(s, 0) != 0x42 || ByteOf(s, 1) != 0x5A || ByteOf(s, 2) != 0x68 then None
    else if ByteOf(s, 3) < 0x30 + 1 || ByteOf(s, 3) > 0x30 + 9 then None
    else ReadBlocks(fmt, ByteOf(s, 3) - 0x30, fmt.zero, s[32..])
  }

  // ----- reading what was written ------------------------------------------

  /** The blocks from i on, as bits and as bytes. */
  ghost function BlocksFrom<R>(fmt: Summing<R>, closed: seq<Closed>, i: nat): seq<bool>
    requires i <= |closed|
    decreases |closed| - i
  {
    if i == |closed| then [] else fmt.BlockBits(closed[i]) + BlocksFrom(fmt, closed, i + 1)
  }

  ghost function ContentsFrom(closed: seq<Closed>, i: nat): seq<Byte>
    requires i <= |closed|
    decreases |closed| - i
  {
    if i == |closed| then [] else Expand(closed[i].runs) + ContentsFrom(closed, i + 1)
  }

  lemma {:induction false} BlocksSplit<R>(fmt: Summing<R>, closed: seq<Closed>, i: nat)
    requires i <= |closed|
    ensures fmt.Blocks(closed) == fmt.Blocks(closed[..i]) + BlocksFrom(fmt, closed, i)
    decreases |closed| - i
  {
    hide Summing.BlockBits;
    if i == |closed| {
      assert closed[..i] == closed;
    } else {
      BlocksSplit(fmt, closed, i + 1);
      assert closed[..i + 1][..i] == closed[..i];
    }
  }

  lemma {:induction false} ContentsSplit(closed: seq<Closed>, i: nat)
    requires i <= |closed|
    ensures Contents(closed) == Contents(closed[..i]) + ContentsFrom(closed, i)
    decreases |closed| - i
  {
    hide Expand;
    if i == |closed| {
      assert closed[..i] == closed;
    } else {
      ContentsSplit(closed, i + 1);
      assert closed[..i + 1][..i] == closed[..i];
    }
  }

  /** The two magics by their bytes. */
  lemma SixBytes(a: nat, b: nat, c: nat, d: nat, e: nat, f: nat, s: seq<bool>, rest: seq<bool>)
    requires a < 256 && b < 256 && c < 256 && d < 256 && e < 256 && f < 256
    requires s == Low(a, 8) + Low(b, 8) + Low(c, 8) + Low(d, 8) + Low(e, 8) + Low(f, 8) + rest
    ensures |s| >= 48 && Six(s, a, b, c, d, e, f)
  {
    hide Low, ByteOf;
    assert s[0..8] == Low(a, 8) && s[8..16] == Low(b, 8) && s[16..24] == Low(c, 8);
    assert s[24..32] == Low(d, 8) && s[32..40] == Low(e, 8) && s[40..48] == Low(f, 8);
    LowByteOf(s, 0, a);
    LowByteOf(s, 1, b);
    LowByteOf(s, 2, c);
    LowByteOf(s, 3, d);
    LowByteOf(s, 4, e);
    LowByteOf(s, 5, f);
  }

  lemma BlockMagicBytes(rest: seq<bool>)
    ensures |BlockMagic()| == 48 && Six(BlockMagic() + rest, 0x31, 0x41, 0x59, 0x26, 0x53, 0x59)
  {
    SixBytes(0x31, 0x41, 0x59, 0x26, 0x53, 0x59, BlockMagic() + rest, rest);
  }

  lemma EndMagicBytes(rest: seq<bool>)
    ensures |EndMagic()| == 48 && Six(EndMagic() + rest, 0x17, 0x72, 0x45, 0x38, 0x50, 0x90)
  {
    SixBytes(0x17, 0x72, 0x45, 0x38, 0x50, 0x90, EndMagic() + rest, rest);
  }

  /** The origin lies within the block. */
  lemma OriginWithin(c: Coded, b: seq<Byte>)
    requires DecodeBody(c) == Some(b)
    ensures c.origPtr < |b|
  {
  }

  /** A block that is not empty reads back as the bytes that went into it. */
  lemma BlockReads<R>(fmt: Summing<R>, level: nat, c: Closed, short: bool, rest: seq<bool>)
    requires SoundBlock(c) && SizedBlock(c, level, short) && c.runs != []
    ensures ReadBlock(fmt, level, Top(fmt.word(fmt.Crc(Expand(c.runs))), 32), c.body + rest) ==
      Parsed(Expand(c.runs), rest)
  {
    hide UnRle, Corrupt, Expand, WrittenAll, WellCoded, BodyBits, ReadBody, DecodeBody;
    RoundTrip(c.runs);
    var coded: Coded :| WellCoded(coded) && c.body == BodyBits(coded) && DecodeBody(coded) == Some(WrittenAll(c.runs));
    OriginWithin(coded, WrittenAll(c.runs));
    BodyReads(coded, rest);
  }

  lemma Cut<T>(a: seq<T>, b: seq<T>, c: seq<T>, rest: seq<T>)
    requires |a| == 48 && |b| == 32
    ensures var s := (a + b + c) + rest;
      |s| == 80 + |c| + |rest| && s[..48] == a && s[48..80] == b && s[80..] == c + rest
  {
  }

  lemma OneBlock<R>(fmt: Summing<R>, level: nat, combined: R, c: Closed, short: bool, rest: seq<bool>, more: seq<Byte>)
    requires SoundBlock(c) && SizedBlock(c, level, short) && c.runs != []
    requires ReadBlocks(fmt, level, fmt.combine(combined, fmt.Crc(Expand(c.runs))), rest) == Some(more)
    ensures ReadBlocks(fmt, level, combined, fmt.BlockBits(c) + rest) == Some(Expand(c.runs) + more)
  {
    hide ReadBlock, SoundBlock, SizedBlock, Expand, Top, BlockMagic, Six, Summing.BlockBits, Summing.Crc;
    BlockReads(fmt, level, c, short, rest);
    var crc := Top(fmt.word(fmt.Crc(Expand(c.runs))), 32);
    BlockIs(fmt, c);
    BlockMagicBytes(crc + c.body + rest);
    Cut(BlockMagic(), crc, c.body, rest);
    assert BlockMagic() + crc + c.body + rest == BlockMagic() + (crc + c.body + rest);
  }

  lemma TrailerReads<R>(fmt: Summing<R>, level: nat, closed: seq<Closed>, rest: seq<bool>)
    ensures ReadBlocks(fmt, level, fmt.Combined(closed), fmt.Trailer(closed) + rest) == Some([])
  {
    var crc := Top(fmt.word(fmt.Combined(closed)), 32);
    EndMagicBytes(crc + rest);
    NotBoth(fmt.Trailer(closed) + rest);
    hide ReadBlock, Top, EndMagic, Summing.Combined, Six;
    Cut(EndMagic(), crc, [], rest);
    assert EndMagic() + crc + [] == fmt.Trailer(closed);
    assert fmt.Trailer(closed) + rest == EndMagic() + (crc + rest);
  }

  lemma NotBoth(s: seq<bool>)
    ensures |s| >= 48 && Six(s, 0x17, 0x72, 0x45, 0x38, 0x50, 0x90) ==> !Six(s, 0x31, 0x41, 0x59, 0x26, 0x53, 0x59)
  {
  }

  lemma NothingBefore<R>(fmt: Summing<R>, c: Closed, rest: seq<bool>)
    ensures c.runs == [] ==> fmt.BlockBits(c) + rest == rest && Expand(c.runs) == []
  {
  }

  /** The blocks from i on read back, given the combined checksum of those
      before. */
  lemma {:induction false} BlocksRead<R>(fmt: Summing<R>, level: nat, closed: seq<Closed>, ended: set<int>, i: nat,
      rest: seq<bool>)
    requires i <= |closed| && Sound(closed) && Sized(closed, level, ended)
    ensures ReadBlocks(fmt, level, fmt.Combined(closed[..i]),
      BlocksFrom(fmt, closed, i) + (fmt.Trailer(closed) + rest)) == Some(ContentsFrom(closed, i))
    decreases |closed| - i
  {
    hide ReadBlocks, Summing.Trailer, Summing.Combined, Summing.BlockBits, Expand, SoundBlock, SizedBlock;
    var tail := fmt.Trailer(closed) + rest;
    if i == |closed| {
      assert closed[..i] == closed && [] + tail == tail;
      TrailerReads(fmt, level, closed, rest);
    } else {
      BlocksRead(fmt, level, closed, ended, i + 1, rest);
      var c := closed[i];
      assert closed[..i + 1] == closed[..i] + [c];
      fmt.CombinedMore(closed[..i], c);
      var next := BlocksFrom(fmt, closed, i + 1) + tail;
      Regroup(fmt.BlockBits(c), BlocksFrom(fmt, closed, i + 1), tail);
      NothingBefore(fmt, c, next);
      assert [] + ContentsFrom(closed, i + 1) == ContentsFrom(closed, i + 1);
      if c.runs != [] {
        OneBlock(fmt, level, fmt.Combined(closed[..i]), c, i in ended, next, ContentsFrom(closed, i + 1));
      }
    }
  }

  /** A finished stream reads back as the bytes that went into its blocks. */
  lemma StreamReads<R>(fmt: Summing<R>, level: nat, closed: seq<Closed>, ended: set<int>, rest: seq<bool>)
    requires 1 <= level <= 9 && Sound(closed) && Sized(closed, level, ended)
    ensures ReadStream(fmt, Header(level) + fmt.Blocks(closed) + fmt.Trailer(closed) + rest) == Some(Contents(closed))
  {
    hide ReadBlocks, Summing.Trailer, Summing.BlockBits, SoundBlock, SizedBlock, Expand, Header;
    BlocksRead(fmt, level, closed, ended, 0, rest);
    BlocksSplit(fmt, closed, 0);
    ContentsSplit(closed, 0);
    assert closed[..0] == [];
    var body := fmt.Blocks(closed) + (fmt.Trailer(closed) + rest);
    assert fmt.Blocks(closed) == BlocksFrom(fmt, closed, 0) && Contents(closed) == ContentsFrom(closed, 0);
    assert Header(level) + fmt.Blocks(closed) + fmt.Trailer(closed) + rest == Header(level) + body;
    HeaderBytes(level, Header(level) + body, body);
    assert (Header(level) + body)[32..] == body by {
      HeaderLength(level);
    }
  }

  lemma HeaderLength(level: nat)
    ensures |Header(level)| == 32
  {
  }

  /** Compressing and decompressing is the identity: whenever a compressor,
      driven by any calls at all, has reported the end of the stream, its
      output reads back as exactly the bytes it was given. */
  lemma CompressDecompress<R>(e: Encoder<R>)
    requires e.Valid() && e.mode == Idle
    ensures ReadStream(e.fmt, Octets(e.delivered)) == Some(e.consumed)
  {
    hide ReadStream, Encoder.OutputSide, Encoder.Control, Summing.Trailer, Summing.Blocks, Header, Decoded, Contents;
    e.AtEnd();
    DecodedIs(e.closed);
    StreamReads(e.fmt, e.level, e.closed, e.ended, Words.Zeros(e.pad));
  }
}
