/** What the reader accepts: only streams made of a header, blocks whose stored
    checksums are right, and a trailer whose combined checksum is right. */
module StreamAccepted {
  import opened Sizes
  import opened Sequences
  import opened BitStream
  import opened Rotations
  import opened Rle
  import opened SideInfo
  import opened Codes
  import opened UsedBytes
  import opened BlockBody
  import opened BlockMeaning
  import opened StreamFormat
  import opened StreamReader

  /** rest is the end of s. */
  predicate Ends(s: seq<bool>, rest: seq<bool>) {
    |rest| <= |s| && rest == s[|s| - |rest|..]
  }

  // ----- the parts of a body -----------------------------------------------

  lemma {:induction false} RowsAccepted(marks: seq<bool>, s: seq<bool>)
    ensures var p := ReadRows(marks, s); p.Parsed? ==> Ends(s, p.rest) && |p.value| == 16 * |marks|
    decreases |marks|
  {
    if marks != [] {
      if !marks[0] {
        RowsAccepted(marks[1..], s);
      } else if |s| >= 16 {
        RowsAccepted(marks[1..], s[16..]);
      }
    }
  }

  lemma {:induction false} UnaryAccepted(s: seq<bool>, limit: nat)
    requires limit > 0
    ensures var p := ReadUnary(s, limit); p.Parsed? ==> Ends(s, p.rest) && p.value < limit
    decreases |s|
  {
    if s != [] && s[0] && limit > 1 {
      UnaryAccepted(s[1..], limit - 1);
    }
  }

  lemma {:induction false} UnariesAccepted(s: seq<bool>, n: nat, limit: nat)
    requires limit > 0
    ensures var p := ReadUnaries(s, n, limit); p.Parsed? ==> Ends(s, p.rest) && |p.value| == n && Placed(p.value, limit)
    decreases n
  {
    if n > 0 {
      UnaryAccepted(s, limit);
      var p := ReadUnary(s, limit);
      if p.Parsed? {
        UnariesAccepted(p.rest, n - 1, limit);
      }
    }
  }

  lemma {:induction false} DeltaAccepted(s: seq<bool>, curr: int)
    ensures var p := ReadDelta(s, curr); p.Parsed? ==> Ends(s, p.rest) && 1 <= p.value <= 20
    decreases |s|
  {
    if 1 <= curr <= 20 && |s| >= 2 && s[0] {
      DeltaAccepted(s[2..], if s[1] then curr - 1 else curr + 1);
    }
  }

  lemma {:induction false} DeltasAccepted(s: seq<bool>, curr: nat, n: nat)
    ensures var p := ReadDeltas(s, curr, n);
      p.Parsed? ==> Ends(s, p.rest) && |p.value| == n && forall i :: 0 <= i < n ==> 1 <= p.value[i] <= 20
    decreases n
  {
    if n > 0 {
      DeltaAccepted(s, curr);
      var p := ReadDelta(s, curr);
      if p.Parsed? {
        DeltasAccepted(p.rest, p.value, n - 1);
      }
    }
  }

  lemma {:induction false} TablesAccepted(s: seq<bool>, n: nat, alphaSize: nat)
    requires alphaSize > 0
    ensures var p := ReadTables(s, n, alphaSize);
      p.Parsed? ==> Ends(s, p.rest) && |p.value| == n && Lengths(p.value, alphaSize)
    decreases n
  {
    hide ReadDeltas;
    if n > 0 {
      var first := ReadLow(s, 5);
      if first.Parsed? {
        DeltasAccepted(first.rest, first.value, alphaSize);
        var p := ReadTable(s, alphaSize);
        if p.Parsed? {
          TablesAccepted(p.rest, n - 1, alphaSize);
        }
      }
    }
  }

  lemma {:induction false} SymbolAccepted(lens: seq<nat>, s: seq<bool>, n: nat)
    ensures var p := ReadSymbol(lens, s, n); p.Parsed? ==> Ends(s, p.rest) && p.value < |lens|
    decreases BZ_MAX_LEN + 1 - n
  {
    hide First, Level, Number;
    if n <= BZ_MAX_LEN && n <= |s| {
      SymbolAccepted(lens, s, n + 1);
    }
  }

  lemma {:induction false} DataAccepted(lens: seq<seq<nat>>, sel: seq<int>, eob: nat, k: nat, s: seq<bool>)
    ensures var p := ReadData(lens, sel, eob, k, s); p.Parsed? ==> Ends(s, p.rest) && Ended(p.value, eob)
    decreases BZ_G_SIZE * |sel| - k
  {
    hide ReadSymbol;
    if k / BZ_G_SIZE < |sel| && 0 <= sel[k / BZ_G_SIZE] < |lens| {
      SymbolAccepted(lens[sel[k / BZ_G_SIZE]], s, 1);
      var p := ReadSymbol(lens[sel[k / BZ_G_SIZE]], s, 1);
      if p.Parsed? && p.value != eob {
        DataAccepted(lens, sel, eob, k + 1, p.rest);
      }
    }
  }

  /** What every body read satisfies: at least one byte in use, two to six tables
      with lengths from 1 to 20, places within them, values up to one end marker. */
  ghost predicate WellRead(c: Coded) {
    && |c.inUse| == 256 && Rank(c.inUse, 256) > 0 && 2 <= |c.lens| <= 6 && |c.places| >= 1
    && Placed(c.places, |c.lens|) && Lengths(c.lens, Eob(c.inUse) + 1) && Ended(c.syms, Eob(c.inUse))
  }

  lemma ValuesAccepted(origPtr: nat, inUse: seq<bool>, places: seq<nat>, lens: seq<seq<nat>>, s: seq<bool>)
    requires |inUse| == 256 && Rank(inUse, 256) > 0 && 2 <= |lens| <= 6 && |places| >= 1 && Placed(places, |lens|)
      && Lengths(lens, Eob(inUse) + 1)
    ensures var p := ReadValues(origPtr, inUse, places, lens, s);
      p.Parsed? ==> Ends(s, p.rest) && WellRead(p.value) && p.value.origPtr == origPtr
  {
    hide Rank, Selectors, ReadData;
    DataAccepted(lens, Selectors(places, |lens|), Eob(inUse), 0, s);
  }

  lemma CodingAccepted(origPtr: nat, inUse: seq<bool>, s: seq<bool>)
    requires |inUse| == 256 && Rank(inUse, 256) > 0
    ensures var p := ReadCoding(origPtr, inUse, s);
      p.Parsed? ==> Ends(s, p.rest) && WellRead(p.value) && p.value.origPtr == origPtr
  {
    hide ReadUnaries, ReadTables, ReadValues, Rank, WellRead, Lengths, Placed;
    var groups := ReadLow(s, 3);
    if groups.Parsed? && 2 <= groups.value <= 6 {
      var n := ReadLow(groups.rest, 15);
      if n.Parsed? && n.value >= 1 {
        UnariesAccepted(n.rest, n.value, groups.value);
        var places := ReadUnaries(n.rest, n.value, groups.value);
        if places.Parsed? {
          TablesAccepted(places.rest, groups.value, Eob(inUse) + 1);
          var lens := ReadTables(places.rest, groups.value, Eob(inUse) + 1);
          if lens.Parsed? && Placed(places.value, |lens.value|) {
            ValuesAccepted(origPtr, inUse, places.value, lens.value, lens.rest);
            EndsFour(s, groups.rest, n.rest, places.rest, lens.rest,
              ReadValues(origPtr, inUse, places.value, lens.value, lens.rest));
          }
        }
      }
    }
  }

  lemma EndsFour(s: seq<bool>, a: seq<bool>, b: seq<bool>, c: seq<bool>, d: seq<bool>, p: Parsed<Coded>)
    requires Ends(s, a) && Ends(a, b) && Ends(b, c) && Ends(c, d) && (p.Parsed? ==> Ends(d, p.rest))
    ensures p.Parsed? ==> Ends(s, p.rest)
  {
  }

  lemma BodyAccepted(s: seq<bool>)
    ensures var p := ReadBody(s); p.Parsed? ==> Ends(s, p.rest) && WellRead(p.value)
  {
    hide ReadCoding, WellRead, Rank, ReadRows;
    if s != [] && !s[0] {
      var o := ReadLow(s[1..], 24);
      if o.Parsed? && |o.rest| >= 16 {
        RowsAccepted(o.rest[..16], o.rest[16..]);
        var used := ReadMap(o.rest);
        if used.Parsed? && Rank(used.value, |used.value|) > 0 {
          CodingAccepted(o.value, used.value, used.rest);
        }
      }
    }
  }

  // ----- blocks ------------------------------------------------------------

  /** A block as it is stored: the bits of its body, and the bytes they give. */
  datatype Stored = Stored(body: seq<bool>, bytes: seq<Byte>)

  /** The body gives these bytes, within the limits of the level. */
  ghost predicate Gives(level: nat, b: Stored) {
    exists c: Coded, block: seq<Byte>, after: seq<bool> ::
      && ReadBody(b.body + after) == Parsed(c, after) && WellRead(c) && c.origPtr <= 10 + 100000 * level
      && DecodeBody(c) == Some(block) && |block| <= 100000 * level
      && !Corrupt(block, 0) && b.bytes == UnRle(block, 0)
  }

  ghost predicate AllGive(level: nat, blocks: seq<Stored>) {
    forall i :: 0 <= i < |blocks| ==> Gives(level, blocks[i])
  }

  ghost function StoredBits<R>(fmt: Summing<R>, blocks: seq<Stored>): seq<bool> {
    if blocks == [] then []
    else BlockMagic() + Top(fmt.word(fmt.Crc(blocks[0].bytes)), 32) + blocks[0].body + StoredBits(fmt, blocks[1..])
  }

  ghost function AllBytes(blocks: seq<Stored>): seq<Byte> {
    if blocks == [] then [] else blocks[0].bytes + AllBytes(blocks[1..])
  }

  ghost function CombinedOf<R>(fmt: Summing<R>, combined: R, blocks: seq<Stored>): R {
    if blocks == [] then combined
    else CombinedOf(fmt, fmt.combine(combined, fmt.Crc(blocks[0].bytes)), blocks[1..])
  }

  lemma BytesLow(s: seq<bool>, k: nat, v: nat)
    requires 8 * k + 8 <= |s| && ByteOf(s, k) == v
    ensures s[8 * k..8 * k + 8] == Low(v, 8)
  {
    NumberLow(s[8 * k..8 * k + 8]);
  }

  lemma SixMagic(s: seq<bool>, a: nat, b: nat, c: nat, d: nat, e: nat, f: nat)
    requires |s| >= 48 && Six(s, a, b, c, d, e, f)
    ensures s[..48] == Low(a, 8) + Low(b, 8) + Low(c, 8) + Low(d, 8) + Low(e, 8) + Low(f, 8)
  {
    hide Low, ByteOf;
    BytesLow(s, 0, a);
    BytesLow(s, 1, b);
    BytesLow(s, 2, c);
    BytesLow(s, 3, d);
    BytesLow(s, 4, e);
    BytesLow(s, 5, f);
    assert s[..48] == s[0..8] + s[8..16] + s[16..24] + s[24..32] + s[32..40] + s[40..48];
  }

  /** A block that is accepted. */
  lemma BlockAccepted<R>(fmt: Summing<R>, level: nat, crc: seq<bool>, s: seq<bool>) returns (b: Stored)
    requires ReadBlock(fmt, level, crc, s).Parsed?
    ensures var p := ReadBlock(fmt, level, crc, s);
      b.bytes == p.value && s == b.body + p.rest && crc == Top(fmt.word(fmt.Crc(b.bytes)), 32) && Gives(level, b)
  {
    hide ReadBody, DecodeBody, UnRle, Corrupt, WellRead, Top;
    BodyAccepted(s);
    var p := ReadBody(s);
    var block := DecodeBody(p.value).value;
    b := Stored(s[..|s| - |p.rest|], UnRle(block, 0));
    assert s == b.body + p.rest;
    assert ReadBody(b.body + p.rest) == Parsed(p.value, p.rest);
  }

  lemma MoreGive(level: nat, b: Stored, more: seq<Stored>)
    requires Gives(level, b) && AllGive(level, more)
    ensures AllGive(level, [b] + more)
  {
    hide Gives;
  }

  /** One block in front of others. */
  lemma FirstStored<R>(fmt: Summing<R>, combined: R, b: Stored, more: seq<Stored>)
    ensures AllBytes([b] + more) == b.bytes + AllBytes(more)
    ensures CombinedOf(fmt, combined, [b] + more) == CombinedOf(fmt, fmt.combine(combined, fmt.Crc(b.bytes)), more)
    ensures StoredBits(fmt, [b] + more) ==
      BlockMagic() + Top(fmt.word(fmt.Crc(b.bytes)), 32) + b.body + StoredBits(fmt, more)
  {
    assert ([b] + more)[1..] == more;
  }

  lemma Pieces(m: seq<bool>, crc: seq<bool>, body: seq<bool>, stored: seq<bool>, trailer: seq<bool>, rest: seq<bool>,
      s: seq<bool>)
    requires |m| == 48 && |crc| == 32 && |s| >= 80 && s[..48] == m && s[48..80] == crc
      && s[80..] == body + (stored + trailer + rest)
    ensures s == (m + crc + body + stored) + trailer + rest
  {
  }

  lemma MagicIs()
    ensures |BlockMagic()| == 48 && |EndMagic()| == 48
    ensures BlockMagic() == Low(0x31, 8) + Low(0x41, 8) + Low(0x59, 8) + Low(0x26, 8) + Low(0x53, 8) + Low(0x59, 8)
    ensures EndMagic() == Low(0x17, 8) + Low(0x72, 8) + Low(0x45, 8) + Low(0x38, 8) + Low(0x50, 8) + Low(0x90, 8)
  {
  }

  /** From one block on. */
  lemma {:induction false} BlocksAccepted<R>(fmt: Summing<R>, level: nat, combined: R, s: seq<bool>)
      returns (blocks: seq<Stored>, rest: seq<bool>)
    requires ReadBlocks(fmt, level, combined, s).Some?
    ensures s == StoredBits(fmt, blocks) + (EndMagic() + Top(fmt.word(CombinedOf(fmt, combined, blocks)), 32)) + rest
    ensures ReadBlocks(fmt, level, combined, s) == Some(AllBytes(blocks)) && AllGive(level, blocks)
    decreases |s|
  {
    hide ReadBlock, Top, Six, Low, Gives, StoredBits, AllBytes, CombinedOf, AllGive, BlockMagic, EndMagic;
    MagicIs();
    if Six(s, 0x31, 0x41, 0x59, 0x26, 0x53, 0x59) {
      SixMagic(s, 0x31, 0x41, 0x59, 0x26, 0x53, 0x59);
      var b := BlockAccepted(fmt, level, s[48..80], s[80..]);
      var p := ReadBlock(fmt, level, s[48..80], s[80..]);
      var sum := fmt.combine(combined, fmt.Crc(p.value));
      var more;
      more, rest := BlocksAccepted(fmt, level, sum, p.rest);
      blocks := [b] + more;
      FirstStored(fmt, combined, b, more);
      MoreGive(level, b, more);
      Pieces(BlockMagic(), s[48..80], b.body, StoredBits(fmt, more),
        EndMagic() + Top(fmt.word(CombinedOf(fmt, sum, more)), 32), rest, s);
    } else {
      SixMagic(s, 0x17, 0x72, 0x45, 0x38, 0x50, 0x90);
      blocks, rest := [], s[80..];
      NothingStored(fmt, level, combined);
      assert s == [] + (s[..48] + s[48..80]) + s[80..];
    }
  }

  lemma NothingStored<R>(fmt: Summing<R>, level: nat, combined: R)
    ensures StoredBits(fmt, []) == [] && AllBytes([]) == [] && CombinedOf(fmt, combined, []) == combined
      && AllGive(level, [])
  {
  }

  /** A stream that is accepted: header, blocks and trailer are as they should be,
      and what is read is what the blocks give. */
  lemma StreamAccepted<R>(fmt: Summing<R>, s: seq<bool>) returns (level: nat, blocks: seq<Stored>, rest: seq<bool>)
    requires ReadStream(fmt, s).Some?
    ensures 1 <= level <= 9 && AllGive(level, blocks) && ReadStream(fmt, s) == Some(AllBytes(blocks))
    ensures s == Header(level)
      + (StoredBits(fmt, blocks) + (EndMagic() + Top(fmt.word(CombinedOf(fmt, fmt.zero, blocks)), 32)) + rest)
  {
    hide ReadBlocks, Top, StoredBits, Low, AllBytes, AllGive, CombinedOf, EndMagic, ByteOf;
    level := ByteOf(s, 3) - 0x30;
    blocks, rest := BlocksAccepted(fmt, level, fmt.zero, s[32..]);
    BytesLow(s, 0, 0x42);
    BytesLow(s, 1, 0x5A);
    BytesLow(s, 2, 0x68);
    BytesLow(s, 3, 0x30 + level);
    assert s == s[0..8] + s[8..16] + s[16..24] + s[24..32] + s[32..];
  }
}
