/** The compressor as its caller sees it: a state machine that takes input and
    gives output in pieces of any size. */
module Encoders {
  import opened Arithmetic
  import opened Checksums
  import opened BitStream
  import opened BitWriters
  import opened Rotations
  import opened Rle
  import opened RunBlocks
  import opened StreamFormat
  import opened CompressBlock
  import opened Capacity
  import BlockMeaning
  import Words

  datatype Mode = Idle | Running | Flushing | Finishing
  datatype State = Output | Input
  datatype Action = Run | Flush | Finish | Other
  datatype Code = RunOk | FlushOk | FinishOk | StreamEnd | SequenceError | ParamError

  /** Everything taken in is in a closed block or in a run of the open one. */
  ghost predicate InAccount(consumed: seq<Byte>, closed: seq<Closed>, open: seq<Pair>) {
    consumed == Contents(closed) + Expand(open)
  }

  lemma InMore(consumed: seq<Byte>, closed: seq<Closed>, open: seq<Pair>, open': seq<Pair>, c: Byte)
    requires InAccount(consumed, closed, open) && Expand(open') == Expand(open) + [c]
    ensures InAccount(consumed + [c], closed, open')
  {
    hide Contents, Expand;
  }

  lemma InClose(consumed: seq<Byte>, closed: seq<Closed>, open: seq<Pair>, c: Closed, pending: seq<Pair>)
    requires InAccount(consumed, closed, open) && Expand(open) == Expand(c.runs) + Expand(pending)
    ensures InAccount(consumed, closed + [c], pending)
  {
    ContentsMore(closed, c);
    hide Contents, Expand;
  }

  /** Everything written is the stream of the closed blocks, up to the zeros
      that fill the very last byte. */
  ghost predicate OutAccount<R>(fmt: Summing<R>, level: nat, closed: seq<Closed>, finished: bool, pad: nat,
      before: seq<Words.Byte>, bits: seq<bool>) {
    Octets(before) + bits == fmt.Emitted(level, closed, finished) + Words.Zeros(pad)
  }

  lemma OutNext<R>(fmt: Summing<R>, level: nat, closed: seq<Closed>, before: seq<Words.Byte>, zbits: seq<Words.Byte>,
      live: seq<bool>)
    requires OutAccount(fmt, level, closed, false, 0, before, Octets(zbits) + live)
    ensures OutAccount(fmt, level, closed, false, 0, before + zbits, Octets([]) + live)
  {
    hide Octets, Summing.Emitted;
    OctetsConcat(before, zbits);
    NoOctets();
    Regroup(Octets(before), Octets(zbits), live);
  }

  /** Closing a block extends the stream by the block, and by the header
      before it or the trailer after it. */
  lemma OutClose<R>(fmt: Summing<R>, level: nat, closed: seq<Closed>, before: seq<Words.Byte>, bits: seq<bool>,
      c: Closed, more: seq<bool>)
    requires OutAccount(fmt, level, closed, false, 0, before, bits)
    requires more == (if closed == [] then Header(level) else bits) + fmt.BlockBits(c)
    ensures OutAccount(fmt, level, closed + [c], false, 0, before, more)
  {
    fmt.EmittedMore(level, closed, c);
    if closed == [] {
      assert fmt.Emitted(level, closed, false) == [];
      EmptyStart(Octets(before), bits, Header(level), fmt.BlockBits(c));
    } else {
      Regroup(Octets(before), bits, fmt.BlockBits(c));
      Unpadded(Octets(before) + bits, fmt.Emitted(level, closed, false));
    }
    Unpadded(Octets(before) + more, fmt.Emitted(level, closed + [c], false));
    hide Summing.Emitted, Octets, Summing.BlockBits, Header;
  }

  lemma OutFinish<R>(fmt: Summing<R>, level: nat, closed: seq<Closed>, before: seq<Words.Byte>, bits: seq<bool>,
      pad: nat, more: seq<bool>)
    requires closed != [] && OutAccount(fmt, level, closed, false, 0, before, bits)
    requires more == bits + fmt.Trailer(closed) + Words.Zeros(pad)
    ensures OutAccount(fmt, level, closed, true, pad, before, more)
  {
    hide Summing.Emitted, Octets, Summing.Trailer;
    var c, front := closed[|closed| - 1], closed[..|closed| - 1];
    assert closed == front + [c];
    fmt.EmittedMore(level, front, c);
    Unpadded(Octets(before) + bits, fmt.Emitted(level, closed, false));
    Regroup(Octets(before), bits, fmt.Trailer(closed));
    Regroup(Octets(before), bits + fmt.Trailer(closed), Words.Zeros(pad));
  }

  lemma Unpadded(a: seq<bool>, b: seq<bool>)
    ensures a == b + Words.Zeros(0) <==> a == b
  {
    assert b + Words.Zeros(0) == b;
  }

  lemma EmptyStart<T>(a: seq<T>, b: seq<T>, h: seq<T>, c: seq<T>)
    requires |a + b| == 0
    ensures a + (h + c) == h + c
  {
    assert a == [];
  }

  /** The header by its bytes. */
  lemma HeaderBytes(level: nat, s: seq<bool>, rest: seq<bool>)
    requires 1 <= level <= 9 && s == Header(level) + rest
    ensures |s| >= 32 && ByteOf(s, 0) == 0x42 && ByteOf(s, 1) == 0x5A && ByteOf(s, 2) == 0x68
      && ByteOf(s, 3) == 0x30 + level
  {
    hide Low;
    var a, b, c, d := Low(BZ_HDR_B, 8), Low(BZ_HDR_Z, 8), Low(BZ_HDR_h, 8), Low(BZ_HDR_0 + level, 8);
    assert s[0..8] == a && s[8..16] == b && s[16..24] == c && s[24..32] == d;
    LowByteOf(s, 0, 0x42);
    LowByteOf(s, 1, 0x5A);
    LowByteOf(s, 2, 0x68);
    LowByteOf(s, 3, 0x30 + level);
  }

  lemma BlockIs<R>(fmt: Summing<R>, c: Closed)
    requires c.runs != []
    ensures fmt.BlockBits(c) == BlockMagic() + Top(fmt.word(fmt.Crc(Expand(c.runs))), 32) + c.body
    ensures BlockMagic() == Low(0x31, 8) + Low(0x41, 8) + Low(0x59, 8) + Low(0x26, 8) + Low(0x53, 8) + Low(0x59, 8)
  {
  }

  lemma Exactly(inUse: seq<bool>, b: seq<Byte>)
    requires |inUse| == 256 && forall c: Byte :: inUse[c] <==> c in b
    ensures BlockMeaning.UsedExactly(inUse, b)
  {
  }

  lemma BlockLength<R>(fmt: Summing<R>, level: nat, c: Closed)
    ensures |Header(level)| == 32 && |fmt.BlockBits(c)| <= 80 + |c.body|
  {
  }

  lemma TrailerLength<R>(fmt: Summing<R>, closed: seq<Closed>)
    ensures |fmt.Trailer(closed)| == 80
  {
  }

  lemma NoBlock<R>(fmt: Summing<R>, c: Closed)
    ensures c.runs == [] ==> fmt.BlockBits(c) == []
  {
  }

  lemma NoOctets()
    ensures Octets([]) == []
  {
  }

  lemma Regroup<T>(a: seq<T>, b: seq<T>, c: seq<T>)
    ensures a + (b + c) == (a + b) + c == (a + b) + ([] + c)
  {
    assert [] + c == c;
  }

  /** A closed block was a sequence of runs, and its body is one of the bytes
      they were written as. */
  ghost predicate Sound(closed: seq<Closed>) {
    forall i :: 0 <= i < |closed| ==> SoundBlock(closed[i])
  }

  ghost predicate SoundBlock(c: Closed) {
    Runs(c.runs) && (c.runs != [] ==> IsBody(c.body, WrittenAll(c.runs)))
  }

  /** No block is longer than the header allows, and each is full unless it was
      ended by a flush or the end of the stream. */
  ghost predicate Sized(closed: seq<Closed>, level: nat, ended: set<int>) {
    forall i :: 0 <= i < |closed| ==> SizedBlock(closed[i], level, i in ended)
  }

  ghost predicate SizedBlock(c: Closed, level: nat, short: bool) {
    Runs(c.runs) && |WrittenAll(c.runs)| <= 100000 * level - 10
      && (short || |WrittenAll(c.runs)| >= 100000 * level - 19)
  }

  lemma SizedMore(closed: seq<Closed>, level: nat, ended: set<int>, c: Closed, short: bool)
    requires Sized(closed, level, ended) && SizedBlock(c, level, short)
    ensures Sized(closed + [c], level, if short then ended + {|closed|} else ended)
  {
    hide SizedBlock;
    var more := closed + [c];
    forall i | 0 <= i < |more| ensures SizedBlock(more[i], level, i in if short then ended + {|closed|} else ended) {
      if i == |closed| {
        WiderSize(c, level, short, i in ended);
      }
    }
  }

  lemma WiderSize(c: Closed, level: nat, short: bool, also: bool)
    requires SizedBlock(c, level, short)
    ensures SizedBlock(c, level, short || also)
  {
  }

  /** What the closed blocks decode to. */
  ghost function Decoded(closed: seq<Closed>): seq<Byte>
    requires forall i :: 0 <= i < |closed| ==> Runs(closed[i].runs)
  {
    if closed == [] then []
    else
      var last := closed[|closed| - 1].runs;
      assert Runs(last);
      Decoded(closed[..|closed| - 1]) + UnRle(WrittenAll(last), 0)
  }

  lemma {:induction false} DecodedIs(closed: seq<Closed>)
    requires Sound(closed)
    ensures Decoded(closed) == Contents(closed)
  {
    if closed != [] {
      DecodedIs(closed[..|closed| - 1]);
      RoundTrip(closed[|closed| - 1].runs);
    }
  }

  lemma InDecoded(consumed: seq<Byte>, closed: seq<Closed>, open: seq<Pair>)
    requires InAccount(consumed, closed, open) && Sound(closed)
    ensures (forall i :: 0 <= i < |closed| ==> Runs(closed[i].runs)) && consumed == Decoded(closed) + Expand(open)
  {
    DecodedIs(closed);
    hide Decoded, Contents, Expand;
  }

  class Encoder<R> {
    const fmt: Summing<R>
    const level: nat
    const workFactor: int
    const nblockMax: nat
    const rl: RunBlock<R>
    const writer: BitWriter
    var mode: Mode
    var state: State
    var availInExpect: nat
    var input: seq<Byte>
    var availOut: nat
    var outPos: nat
    var blockNo: nat
    var combined: R
    ghost var consumed: seq<Byte>
    ghost var delivered: seq<Words.Byte>
    ghost var closed: seq<Closed>
    ghost var before: seq<Words.Byte>
    ghost var finished: bool
    ghost var pad: nat
    ghost var ended: set<int>

    ghost predicate Shape() {
      && 1 <= level <= 9 && nblockMax == 100000 * level - 19 && rl.block.Length == 100000 * level && rl.sum == fmt.sum
    }

    /** The runs not yet in a closed block. */
    ghost function Open(): seq<Pair>
      reads this`state, rl
    {
      if state == Input then rl.All() else rl.Pending()
    }

    ghost predicate InputSide()
      reads this`state, this`consumed, this`closed, this`ended, rl, rl.block
    {
      && Shape() && rl.Valid() && rl.nblock <= 100000 * level - 10
      && InAccount(consumed, closed, Open()) && Sound(closed) && Sized(closed, level, ended)
    }

    ghost predicate OutputSide()
      reads this`closed, this`finished, this`pad, this`before, this`delivered, this`outPos, this`combined, writer
    {
      && writer.Valid() && outPos <= |writer.zbits| && delivered == before + writer.zbits[..outPos]
      && OutAccount(fmt, level, closed, finished, pad, before, writer.Bits())
      && (if finished then pad < 8 && writer.bsLive <= 0 else pad == 0 && writer.bsLive >= 0)
      && combined == fmt.Combined(closed)
    }

    ghost predicate Control()
      reads this, rl, writer
    {
      && (state == Input ==>
        && rl.nblock < nblockMax && (rl.Empty() ==> rl.pairs == []) && blockNo == |closed| + 1
        && writer.zbits == [] && outPos == 0 && mode != Idle)
      && (state == Output ==>
        && rl.nblock + |writer.zbits| <= ArrayBytes(level) && blockNo == |closed| && closed != []
        && (rl.Empty() ==> mode != Running && availInExpect == 0 && (mode == Flushing || finished)))
      && outPos <= |writer.zbits|
      && (finished ==> state == Output && rl.Empty() && availInExpect == 0 && (mode == Finishing || mode == Idle))
      && (mode == Idle ==> finished && outPos == |writer.zbits|)
    }

    ghost predicate Valid()
      reads this, rl, rl.block, writer
    {
      InputSide() && OutputSide() && Control()
    }

    /** BZ2_bzCompressInit, given arguments it accepts. */
    constructor (format: Summing<R>, blockSize100k: nat, factor: nat)
      requires 1 <= blockSize100k <= 9 && factor <= 250
      ensures Valid() && mode == Running && consumed == [] && delivered == [] && closed == [] && !finished
        && ended == {}
      ensures workFactor == (if factor == 0 then 30 else factor) && nblockMax == 100000 * blockSize100k - 19
      ensures fmt == format && level == blockSize100k && fresh(rl) && fresh(rl.block) && fresh(writer)
    {
      fmt, level, nblockMax := format, blockSize100k, 100000 * blockSize100k - 19;
      workFactor := if factor == 0 then 30 else factor;
      rl := new RunBlock(format.sum, 100000 * blockSize100k);
      writer := new BitWriter();
      mode, state, availInExpect, input, availOut, outPos, blockNo, combined :=
        Running, Input, 0, [], 0, 0, 1, format.zero;
      consumed, delivered, closed, before, finished, pad, ended := [], [], [], [], false, 0, {};
      new;
      hide InputSide, OutputSide, Control;
      InputBegins();
      OutputBegins();
      ControlBegins();
    }

    lemma InputBegins()
      requires Shape() && rl.Valid() && rl.pairs == [] && rl.nblock == 0 && rl.Empty() && state == Input
        && consumed == [] && closed == []
      ensures InputSide()
    {
      rl.AllIs();
      assert rl.All() == [];
    }

    lemma OutputBegins()
      requires writer.Valid() && writer.zbits == [] && writer.bsLive == 0 && outPos == 0 && delivered == []
        && before == [] && closed == []
      requires !finished && pad == 0 && combined == fmt.zero
      ensures OutputSide()
    {
      NoOctets();
      assert writer.Bits() == [];
    }

    lemma ControlBegins()
      requires Shape() && rl.pairs == [] && rl.nblock == 0 && state == Input && mode == Running && blockNo == 1
        && closed == []
      requires writer.zbits == [] && outPos == 0 && !finished
      ensures Control()
    {
    }

    /** copy_output_until_stop */
    method CopyOutput() returns (progress: bool)
      requires OutputSide()
      modifies this`outPos, this`availOut, this`delivered
      ensures OutputSide() && outPos <= |writer.zbits| && (availOut == 0 || outPos == |writer.zbits|)
      ensures progress == (|delivered| > |old(delivered)|)
      ensures old(delivered) <= delivered && |delivered| + availOut == |old(delivered)| + old(availOut)
    {
      hide OutAccount;
      progress := false;
      while true
        invariant OutputSide() && progress == (|delivered| > |old(delivered)|)
        invariant old(delivered) <= delivered && |delivered| + availOut == |old(delivered)| + old(availOut)
        decreases availOut
      {
        if availOut == 0 {
          break;
        }
        if outPos >= |writer.zbits| {
          break;
        }
        progress := true;
        delivered := delivered + [writer.zbits[outPos]];
        outPos := outPos + 1;
        availOut := availOut - 1;
      }
    }

    /** One byte is taken from the input. */
    method TakeByte()
      requires state == Input && InputSide() && rl.nblock < nblockMax && (rl.Empty() ==> rl.pairs == []) && input != []
      modifies this`input, this`consumed, rl, rl.block
      ensures InputSide() && !rl.Empty() && rl.nblock <= old(rl.nblock) + 5
      ensures input == old(input)[1..] && consumed == old(consumed) + [old(input)[0]]
    {
      hide InAccount, Sound, Sized, Expand, Runs, Built;
      ghost var was := rl.All();
      rl.AddChar(input[0]);
      InMore(consumed, closed, was, rl.All(), input[0]);
      consumed := consumed + [input[0]];
      input := input[1..];
    }

    /** copy_input_until_stop */
    method CopyInput() returns (progress: bool)
      requires state == Input && InputSide() && rl.nblock < nblockMax && (rl.Empty() ==> rl.pairs == [])
      requires mode != Running ==> availInExpect == |input|
      modifies this`input, this`consumed, this`availInExpect, rl, rl.block
      ensures InputSide() && (rl.Empty() ==> rl.pairs == []) && rl.nblock <= nblockMax + 4
      ensures consumed + input == old(consumed + input) && progress == (|input| < |old(input)|)
        && |input| <= |old(input)|
      ensures rl.nblock >= nblockMax || input == []
      ensures rl.nblock >= nblockMax ==> progress && !rl.Empty()
      ensures mode != Running ==> availInExpect == |input|
      ensures mode == Running ==> availInExpect == old(availInExpect)
    {
      hide InputSide;
      progress := false;
      if mode == Running {
        while true
          invariant InputSide() && (rl.Empty() ==> rl.pairs == []) && rl.nblock <= nblockMax + 4
          invariant consumed + input == old(consumed + input) && progress == (|input| < |old(input)|)
            && |input| <= |old(input)|
          invariant rl.nblock >= nblockMax ==> progress && !rl.Empty()
          invariant availInExpect == old(availInExpect)
          decreases |input|
        {
          if rl.nblock >= nblockMax {
            break;
          }
          if |input| == 0 {
            break;
          }
          progress := true;
          TakeByte();
        }
      } else {
        while true
          invariant InputSide() && (rl.Empty() ==> rl.pairs == []) && rl.nblock <= nblockMax + 4
          invariant consumed + input == old(consumed + input) && progress == (|input| < |old(input)|)
            && |input| <= |old(input)|
          invariant rl.nblock >= nblockMax ==> progress && !rl.Empty()
          invariant availInExpect == |input|
          decreases |input|
        {
          if rl.nblock >= nblockMax {
            break;
          }
          if |input| == 0 {
            break;
          }
          if availInExpect == 0 {
            break;
          }
          progress := true;
          TakeByte();
          availInExpect := availInExpect - 1;
        }
      }
    }

    /** The stream header, before the first block. */
    method WriteHeader()
      requires writer.Valid() && writer.zbits == [] && level <= 9
      modifies writer
      ensures writer.Valid() && writer.bsLive >= 0 && writer.Bits() == Header(level)
    {
      hide Low, Octets, BitWriter.Valid, BitWriter.Bits;
      NoOctets();
      writer.InitWrite();
      writer.PutUChar(BZ_HDR_B);
      writer.PutUChar(BZ_HDR_Z);
      writer.PutUChar(BZ_HDR_h);
      writer.PutUChar(BZ_HDR_0 + level);
      assert [] + Low(BZ_HDR_B, 8) == Low(BZ_HDR_B, 8);
    }

    /** One block that is not empty. */
    method WriteBlock(crc: R) returns (ghost c: Closed)
      requires writer.Valid() && writer.bsLive >= 0 && rl.Consistent() && rl.pairs != [] && rl.nblock <= 900000 - 10
      requires crc == fmt.Crc(Expand(rl.pairs))
      modifies writer
      ensures writer.Valid() && writer.bsLive >= 0 && writer.Bits() == old(writer.Bits()) + fmt.BlockBits(c)
      ensures c.runs == rl.pairs && IsBody(c.body, rl.Content()) && |c.body| <= BodyLimit(rl.nblock)
    {
      hide *;
      rl.ContentUsed();
      Exactly(rl.inUse, rl.block[..rl.nblock]);
      writer.PutSix(0x31, 0x41, 0x59, 0x26, 0x53, 0x59);
      writer.PutUInt32(fmt.word(crc));
      ghost var body := CodeBlock(writer, rl.block[..rl.nblock], rl.inUse, workFactor);
      c := Closed(rl.pairs, body);
      BlockIs(fmt, c);
      Regroup(old(writer.Bits()), BlockMagic(), Top(fmt.word(crc), 32));
      Regroup(old(writer.Bits()), BlockMagic() + Top(fmt.word(crc), 32), body);
    }

    /** The end of the stream, filled up to a whole byte. */
    method WriteTrailer()
      requires writer.Valid() && writer.bsLive >= 0 && combined == fmt.Combined(closed)
      modifies writer
      ensures writer.Valid() && -8 < writer.bsLive <= 0
      ensures writer.Bits() == old(writer.Bits()) + fmt.Trailer(closed) + Words.Zeros(-writer.bsLive)
    {
      hide Low, Octets, Top, BitWriter.Valid, BitWriter.Bits, Summing.Combined;
      writer.PutSix(0x17, 0x72, 0x45, 0x38, 0x50, 0x90);
      writer.PutUInt32(fmt.word(combined));
      writer.FinishWrite();
    }

    /** What is true when a block is about to be closed. */
    ghost predicate Closing()
      reads this, rl, rl.block, writer
    {
      && InputSide() && OutputSide() && !finished && writer.zbits == [] && outPos == 0
      && state == Input && blockNo == |closed| + 1
    }

    /** The part of BZ2_compressBlock that does the checksums. */
    method Combine() returns (crc: R)
      requires rl.Consistent() && rl.sum == fmt.sum
      modifies this`combined
      ensures crc == fmt.Crc(Expand(rl.pairs))
        && combined == if rl.pairs == [] then old(combined) else fmt.combine(old(combined), crc)
    {
      rl.NothingWritten();
      rl.Start();
      hide Built, Expand;
      crc := fmt.finalise(rl.crc);
      if rl.nblock > 0 {
        combined := fmt.combine(combined, crc);
      }
    }

    /** The part of BZ2_compressBlock that writes header and block. */
    method WriteNext(crc: R) returns (ghost c: Closed)
      requires writer.Valid() && writer.bsLive >= 0 && rl.Consistent() && rl.nblock <= 900000 - 10
      requires crc == fmt.Crc(Expand(rl.pairs)) && writer.zbits == [] && level <= 9
      modifies writer
      ensures writer.Valid() && writer.bsLive >= 0
      ensures writer.Bits() == (if blockNo == 1 then Header(level) else old(writer.Bits())) + fmt.BlockBits(c)
      ensures c.runs == rl.pairs && (c.runs != [] ==> IsBody(c.body, rl.Content())) && |c.body| <= BodyLimit(rl.nblock)
    {
      hide *;
      rl.NothingWritten();
      rl.Start();
      if blockNo == 1 {
        WriteHeader();
      }
      if rl.nblock > 0 {
        c := WriteBlock(crc);
      } else {
        c := Closed([], []);
        assert |c.body| == 0;
        NoBlock(fmt, c);
        assert writer.Bits() + [] == writer.Bits();
      }
    }

    /** BZ2_compressBlock */
    method CompressBlock(last: bool)
      requires Closing()
      modifies this`combined, this`closed, this`finished, this`pad, writer
      ensures |closed| == |old(closed)| + 1 && closed[..|closed| - 1] == old(closed) && finished == last
      ensures var c := closed[|closed| - 1]; c.runs == rl.pairs && (c.runs != [] ==> IsBody(c.body, rl.Content()))
      ensures OutputSide() && rl.nblock + |writer.zbits| <= ArrayBytes(level)
    {
      hide InputSide, OutputSide, Built, OutAccount, Expand, Octets, BodyLimit, IsBody, Clear, Top, Summing.Combined,
        Summing.BlockBits, Summing.Trailer, Header, BitWriter.Valid;
      ClosingIs();
      OutIs();
      ghost var bits := writer.Bits();
      writer.BytesOut();
      var crc := Combine();
      ghost var c := WriteNext(crc);
      BlockLength(fmt, level, c);
      fmt.CombinedMore(closed, c);
      OutClose(fmt, level, closed, before, bits, c, writer.Bits());
      closed := closed + [c];
      bits := writer.Bits();
      if last {
        WriteTrailer();
        pad := -writer.bsLive;
        TrailerLength(fmt, closed);
        OutFinish(fmt, level, closed, before, bits, pad, writer.Bits());
      }
      finished := last;
      writer.BytesOut();
      Capacity.BlockFits(level, rl.nblock, |writer.Bits()|, |writer.zbits|);
      ClosedOutput();
    }

    lemma OutIs()
      requires OutputSide() && !finished
      ensures writer.Valid() && writer.bsLive >= 0 && pad == 0 && combined == fmt.Combined(closed)
      ensures outPos <= |writer.zbits| && delivered == before + writer.zbits[..outPos]
      ensures OutAccount(fmt, level, closed, false, 0, before, writer.Bits())
    {
    }

    lemma ClosedOutput()
      requires writer.Valid() && outPos == 0 && delivered == before && combined == fmt.Combined(closed)
      requires OutAccount(fmt, level, closed, finished, pad, before, writer.Bits())
      requires if finished then pad < 8 && writer.bsLive <= 0 else pad == 0 && writer.bsLive >= 0
      ensures OutputSide()
    {
      hide OutAccount, Summing.Combined, BitWriter.Valid;
      assert before + writer.zbits[..0] == before;
    }

    lemma ClosingIs()
      requires Closing()
      ensures Shape() && rl.Consistent() && rl.Valid() && OutputSide()
        && rl.nblock <= 100000 * level - 10 <= 900000 - 10
      ensures InAccount(consumed, closed, rl.All()) && Sound(closed) && Sized(closed, level, ended)
    {
    }

    /** prepare_new_block, and back to taking input: the pending run opens the
        next block. */
    method NextBlock()
      requires state == Output && InputSide() && OutputSide() && !finished && outPos == |writer.zbits|
        && blockNo == |closed|
      modifies this`state, this`outPos, this`blockNo, this`before, rl, writer
      ensures state == Input && InputSide() && OutputSide() && rl.nblock == 0 && rl.pairs == []
      ensures blockNo == |closed| + 1 && writer.zbits == [] && outPos == 0
      ensures rl.Empty() == old(rl.Empty())
    {
      hide InputSide, OutputSide, OutAccount, InAccount, Sound, Sized, Built, Octets, Runs, Clear, Summing.Combined,
        Top, RunBlock.Valid;
      WaitingIs();
      ghost var z := writer.zbits;
      rl.Prepare();
      writer.Restart();
      OutNext(fmt, level, closed, before, z, Top(writer.bsBuff, writer.bsLive));
      before := before + z;
      outPos := 0;
      blockNo := blockNo + 1;
      state := Input;
      NextInput();
      NextOutput();
    }

    /** What is known once all output of a block is delivered. */
    lemma WaitingIs()
      requires state == Output && InputSide() && OutputSide() && !finished && outPos == |writer.zbits|
      ensures Shape() && rl.Valid() && InAccount(consumed, closed, rl.Pending()) && Sound(closed)
        && Sized(closed, level, ended)
      ensures writer.Valid() && writer.bsLive >= 0 && delivered == before + writer.zbits && pad == 0
      ensures OutAccount(fmt, level, closed, false, 0, before, Octets(writer.zbits) + Top(writer.bsBuff, writer.bsLive))
      ensures combined == fmt.Combined(closed)
    {
      assert writer.zbits[..outPos] == writer.zbits;
    }

    lemma NextInput()
      requires state == Input && Shape() && rl.Valid() && rl.nblock == 0 && rl.pairs == []
      requires InAccount(consumed, closed, rl.Pending()) && Sound(closed) && Sized(closed, level, ended)
      ensures InputSide()
    {
      hide InAccount, Sound, Sized, RunBlock.Valid;
      rl.AllIs();
      assert [] + rl.Pending() == rl.Pending();
    }

    lemma NextOutput()
      requires writer.Valid() && writer.bsLive >= 0 && writer.zbits == [] && outPos == 0 && delivered == before
      requires !finished && pad == 0 && combined == fmt.Combined(closed)
      requires OutAccount(fmt, level, closed, false, 0, before, Octets([]) + Top(writer.bsBuff, writer.bsLive))
      ensures OutputSide()
    {
      hide OutAccount, Summing.Combined;
    }

    /** BZ2_compressBlock as handle_compress calls it. */
    method CloseBlock(last: bool, ghost short: bool)
      requires Closing() && (short || rl.nblock >= 100000 * level - 19)
      modifies this`combined, this`closed, this`finished, this`pad, this`state, this`ended, writer
      ensures state == Output && InputSide() && OutputSide() && finished == last && closed != [] && blockNo == |closed|
      ensures rl.nblock + |writer.zbits| <= ArrayBytes(level)
      ensures ended == if short then old(ended) + {|old(closed)|} else old(ended)
    {
      hide Built, OutAccount, InAccount, InputSide, Expand, Runs, OutputSide, BitWriter.Valid, IsBody, Sound, Sized;
      ClosingIs();
      ghost var was := closed;
      CompressBlock(last);
      ghost var c := closed[|closed| - 1];
      assert closed == was + [c];
      if short {
        ended := ended + {|was|};
      }
      state := Output;
      ClosedInput(was, old(ended), c, short);
    }

    /** The block just closed joins those before it. */
    lemma ClosedInput(was: seq<Closed>, wasEnded: set<int>, c: Closed, short: bool)
      requires Shape() && rl.Valid() && rl.nblock <= 100000 * level - 10 && state == Output
      requires InAccount(consumed, was, rl.All()) && Sound(was) && Sized(was, level, wasEnded)
      requires closed == was + [c] && ended == (if short then wasEnded + {|was|} else wasEnded)
      requires c.runs == rl.pairs && (c.runs != [] ==> IsBody(c.body, rl.Content()))
      requires short || rl.nblock >= 100000 * level - 19
      ensures InputSide()
    {
      rl.AllIs();
      rl.PairsAreRuns();
      hide InAccount, Expand, Runs, IsBody, Sized, RunBlock.Valid;
      InClose(consumed, was, rl.All(), c, rl.Pending());
      ContentSize();
      assert SizedBlock(c, level, short);
      SizedMore(was, level, wasEnded, c, short);
      SoundMore(was, c);
    }

    lemma ContentSize()
      requires rl.Valid()
      ensures |rl.Content()| == rl.nblock
    {
    }

    lemma SoundMore(was: seq<Closed>, c: Closed)
      requires Sound(was) && SoundBlock(c)
      ensures Sound(was + [c])
    {
    }

    lemma Limits()
      requires InputSide()
      ensures 0 < nblockMax == 100000 * level - 19
    {
    }

    /** handle_compress while output is waiting. */
    method DrainStep() returns (stop: bool, progress: bool)
      requires Valid() && state == Output && mode != Idle
      modifies this, rl, writer
      ensures Valid() && Kept(old(mode), old(input), old(consumed), old(availInExpect)) && ended == old(ended)
      ensures old(delivered) <= delivered && |delivered| + availOut == |old(delivered)| + old(availOut)
      ensures progress == (|delivered| > |old(delivered)|)
      ensures !stop ==> state == Input && !old(rl.Empty())
      ensures stop ==>
        if state == Input then mode == Flushing && availInExpect == 0 && rl.Empty()
        else if outPos < |writer.zbits| then availOut == 0 else finished
    {
      hide InputSide, OutputSide;
      Limits();
      progress := CopyOutput();
      if outPos < |writer.zbits| {
        return true, progress;
      }
      if mode == Finishing && availInExpect == 0 && rl.Empty() {
        return true, progress;
      }
      NextBlock();
      stop := mode == Flushing && availInExpect == 0 && rl.Empty();
    }

    ghost predicate Kept(mode0: Mode, input0: seq<Byte>, consumed0: seq<Byte>, expect0: nat)
      reads this`mode, this`input, this`consumed, this`availInExpect
    {
      mode == mode0 && input == input0 && consumed == consumed0 && availInExpect == expect0
    }

    /** handle_compress while input is taken. */
    method FillStep() returns (stop: bool, progress: bool)
      requires Valid() && state == Input && (mode != Running ==> availInExpect == |input|)
      modifies this`input, this`consumed, this`availInExpect, this`combined, this`closed, this`finished, this`pad,
        this`state, this`ended, rl, rl.block, writer
      ensures Valid() && (mode != Running ==> availInExpect == |input|) && consumed + input == old(consumed + input)
      ensures progress == (|input| < |old(input)|) && |input| <= |old(input)|
      ensures stop ==> state == Input && mode == Running && input == []
      ensures !stop ==> state == Output && (|input| < |old(input)| || rl.Empty())
      ensures stop || (mode != Running && availInExpect == 0) || rl.nblock >= 100000 * level - 19
      ensures mode == Running ==> ended == old(ended)
    {
      hide InputSide, OutputSide;
      Limits();
      progress := CopyInput();
      if mode != Running && availInExpect == 0 {
        FlushRuns();
        CloseBlock(mode == Finishing, true);
        stop := false;
      } else if rl.nblock >= nblockMax {
        CloseBlock(false, false);
        stop := false;
      } else {
        stop := true;
      }
    }

    /** flush_RL on the open block */
    method FlushRuns()
      requires state == Input && InputSide() && rl.nblock <= nblockMax + 4
      modifies rl, rl.block
      ensures InputSide() && rl.Empty()
    {
      hide InAccount, Sound, Sized, Runs, Built;
      rl.Flush();
    }

    /** Nothing more to do until the caller brings input or output space. */
    ghost predicate Stopped()
      reads this, rl, writer
    {
      match state
      case Input => input == [] && (mode == Running || (mode == Flushing && rl.Empty()))
      case Output => if outPos < |writer.zbits| then availOut == 0 else finished
    }

    /** handle_compress: always comes to an end, whatever the sizes. */
    method Handle() returns (progress: bool)
      requires Valid() && mode != Idle && (mode != Running ==> availInExpect == |input|)
      modifies this, rl, rl.block, writer
      ensures Valid() && mode == old(mode) && (mode != Running ==> availInExpect == |input|)
      ensures mode == Running ==> ended == old(ended)
      ensures consumed + input == old(consumed + input) && |input| <= |old(input)|
      ensures old(delivered) <= delivered && |delivered| + availOut == |old(delivered)| + old(availOut)
      ensures progress == (|input| < |old(input)| || |delivered| > |old(delivered)|)
      ensures Stopped()
    {
      hide Valid;
      var progressIn, progressOut := false, false;
      while true
        invariant Valid() && mode == old(mode) && mode != Idle && (mode != Running ==> availInExpect == |input|)
        invariant mode == Running ==> ended == old(ended)
        invariant consumed + input == old(consumed + input) && |input| <= |old(input)|
        invariant old(delivered) <= delivered && |delivered| + availOut == |old(delivered)| + old(availOut)
        invariant progressIn == (|input| < |old(input)|) && progressOut == (|delivered| > |old(delivered)|)
        decreases |input|, if state == Output && rl.Empty() then 0 else 1
      {
        var stop, progress;
        if state == Output {
          stop, progress := DrainStep();
          progressOut := progressOut || progress;
          if stop {
            break;
          }
        }
        stop, progress := FillStep();
        progressIn := progressIn || progress;
        if stop {
          break;
        }
      }
      progress := progressIn || progressOut;
    }

    /** The part of BZ2_bzCompress for a flush under way. */
    method ContinueFlush() returns (code: Code)
      requires Valid() && mode == Flushing
      modifies this, rl, rl.block, writer
      ensures Valid() && Taken(old(consumed), old(input)) && Given(old(delivered), old(availOut))
      ensures if old(availInExpect) == |old(input)| then code == FlushOk || code == RunOk
        else code == SequenceError && input == old(input) && delivered == old(delivered)
      ensures mode == if code == RunOk then Running else Flushing
      ensures code == RunOk ==> input == [] && Open() == []
      ensures code == FlushOk ==> input != [] || !rl.Empty() || outPos < |writer.zbits|
    {
      hide InputSide, OutputSide;
      if availInExpect != |input| {
        return SequenceError;
      }
      var progress := Handle();
      if availInExpect > 0 || !rl.Empty() || outPos < |writer.zbits| {
        return FlushOk;
      }
      mode := Running;
      code := RunOk;
    }

    /** The part of BZ2_bzCompress for a stream being finished. */
    method ContinueFinish() returns (code: Code)
      requires Valid() && mode == Finishing
      modifies this, rl, rl.block, writer
      ensures Valid() && Taken(old(consumed), old(input)) && Given(old(delivered), old(availOut))
      ensures old(availInExpect) != |old(input)| ==>
        code == SequenceError && input == old(input) && delivered == old(delivered)
      ensures code == SequenceError || code == FinishOk || code == StreamEnd
      ensures mode == if code == StreamEnd then Idle else Finishing
      ensures code == StreamEnd ==> input == []
      ensures old(availInExpect) == |old(input)| ==> (code == SequenceError <==> Idled(old(input), old(delivered)))
      ensures code == FinishOk ==> input != [] || !rl.Empty() || outPos < |writer.zbits|
    {
      hide InputSide, OutputSide;
      if availInExpect != |input| {
        return SequenceError;
      }
      var progress := Handle();
      if !progress {
        return SequenceError;
      }
      if availInExpect > 0 || !rl.Empty() || outPos < |writer.zbits| {
        return FinishOk;
      }
      assert finished;
      mode := Idle;
      code := StreamEnd;
    }

    /** Nothing was taken and nothing delivered. */
    ghost predicate Idled(input0: seq<Byte>, delivered0: seq<Words.Byte>)
      reads this`input, this`delivered
    {
      |input| >= |input0| && |delivered| <= |delivered0|
    }

    /** A prefix of the input has been taken. */
    ghost predicate Taken(consumed0: seq<Byte>, input0: seq<Byte>)
      reads this`consumed, this`input
    {
      consumed + input == consumed0 + input0 && |input| <= |input0|
    }

    /** In other words: */
    lemma Leftover(consumed0: seq<Byte>, input0: seq<Byte>)
      requires Taken(consumed0, input0)
      ensures var k := |input0| - |input|; consumed == consumed0 + input0[..k] && input == input0[k..]
    {
      var k := |input0| - |input|;
      var all := consumed0 + input0;
      assert input == (consumed + input)[|consumed|..] && consumed == (consumed + input)[..|consumed|];
      assert input0[k..] == all[|consumed0| + k..] && consumed0 + input0[..k] == all[..|consumed0| + k];
    }

    /** The output has grown by what was used of the space. */
    ghost predicate Given(delivered0: seq<Words.Byte>, space: nat)
      reads this`delivered, this`availOut
    {
      delivered0 <= delivered && |delivered| + availOut == |delivered0| + space
    }

    lemma IdledUnchanged(consumed0: seq<Byte>, input0: seq<Byte>, delivered0: seq<Words.Byte>, space: nat)
      requires Taken(consumed0, input0) && Given(delivered0, space)
      ensures Idled(input0, delivered0) ==> input == input0 && delivered == delivered0
    {
      if Idled(input0, delivered0) {
        Leftover(consumed0, input0);
      }
    }

    /** At every point of every run: what was taken in is what the closed
        blocks decode to, then what the open one decodes to, then the pending
        run; and the block's checksum is that of what it decodes to. */
    lemma Conservation()
      requires Valid()
      ensures state == Input ==> consumed == Decoded(closed) + UnRle(rl.Content(), 0) + Expand(rl.Pending())
      ensures state == Output ==> consumed == Decoded(closed) + Expand(rl.Pending())
      ensures rl.crc == fmt.sum.Over(UnRle(rl.Content(), 0)) && !Corrupt(rl.Content(), 0)
    {
      hide InAccount, Sound, Sized, Built, Runs, Expand, UnRle, Corrupt, Decoded, OutputSide, Control;
      rl.PairsAreRuns();
      RoundTrip(rl.pairs);
      rl.Start();
      InDecoded(consumed, closed, Open());
      rl.AllIs();
      Regroup(Decoded(closed), Expand(rl.pairs), Expand(rl.Pending()));
    }

    /** The bytes in use are exactly those of the block; the block and all that
        is written for it fit the array they share. */
    lemma BlockFits()
      requires Valid()
      ensures rl.nblock <= 100000 * level - 10 && forall c: Byte :: rl.inUse[c] <==> c in rl.Content()
      ensures rl.nblock + |writer.zbits| <= ArrayBytes(level)
    {
      hide OutAccount, InAccount, Sound, Sized;
    }

    /** At the end of a stream everything taken in is in the blocks, and the
        output is exactly one header, the blocks and one trailer, filled up to
        a whole byte. */
    lemma AtEnd()
      requires Valid() && mode == Idle
      ensures closed != [] && consumed == Decoded(closed) && pad < 8
      ensures Octets(delivered) == Header(level) + fmt.Blocks(closed) + fmt.Trailer(closed) + Words.Zeros(pad)
      ensures Shape() && Sound(closed) && Sized(closed, level, ended)
    {
      Conservation();
      hide InputSide, Summing.Combined, Summing.Blocks, Summing.Trailer, Header, Decoded;
      assert Expand(rl.Pending()) == [];
      assert writer.zbits[..outPos] == writer.zbits;
      OctetsConcat(before, writer.zbits);
      assert Octets(writer.zbits) + Top(writer.bsBuff, writer.bsLive) == Octets(writer.zbits);
    }

    /** The output of a finished stream begins "BZh" and the digit of its block
        size. */
    lemma FirstBytes()
      requires Valid() && mode == Idle
      ensures |delivered| >= 4 && Val(delivered[0]) == 0x42 && Val(delivered[1]) == 0x5A && Val(delivered[2]) == 0x68
      ensures Val(delivered[3]) == 0x30 + level
    {
      hide InputSide, OutputSide, Control, Octets, Low, Summing.Blocks, Summing.Trailer, Sound, Sized;
      AtEnd();
      OctetsLength(delivered);
      HeaderBytes(level, Octets(delivered), fmt.Blocks(closed) + fmt.Trailer(closed) + Words.Zeros(pad));
      OctetsByte(delivered, 0);
      OctetsByte(delivered, 1);
      OctetsByte(delivered, 2);
      OctetsByte(delivered, 3);
    }

    /** The caller sets up its buffers. */
    method Present(nextIn: seq<Byte>, space: nat)
      requires Valid()
      modifies this`input, this`availOut
      ensures Valid() && input == nextIn && availOut == space
    {
      hide InputSide, OutputSide;
      input, availOut := nextIn, space;
    }

    /** A flush, or the end of the stream, begins with the input at hand. */
    method Begin(next: Mode)
      requires Valid() && mode == Running && (next == Flushing || next == Finishing)
      modifies this`mode, this`availInExpect
      ensures Valid() && mode == next && availInExpect == |input|
    {
      hide InputSide, OutputSide;
      availInExpect := |input|;
      mode := next;
    }

    /** BZ2_bzCompress on a stream with the given input and output space. */
    method Compress(nextIn: seq<Byte>, space: nat, action: Action) returns (code: Code)
      requires Valid()
      modifies this, rl, rl.block, writer
      ensures Valid() && Taken(old(consumed), nextIn) && Given(old(delivered), space)
      ensures action == Run ==> ended == old(ended)
      ensures code == StreamEnd <==> old(mode) != Idle && mode == Idle
      ensures code == StreamEnd ==> action == Finish && input == []
      ensures action == Flush && code == RunOk ==> input == [] && Open() == []
      ensures code == RunOk ==> mode == Running
      ensures code == FlushOk ==> mode == Flushing && action == Flush
      ensures code == FinishOk ==> mode == Finishing && action == Finish
      ensures code == ParamError <==>
        old(mode) == Running && (action == Other || (action == Run && Idled(nextIn, old(delivered))))
      ensures code == SequenceError <==> match old(mode)
        case Idle => true
        case Running => action == Finish && Idled(nextIn, old(delivered))
        case Flushing => action != Flush || old(availInExpect) != |nextIn|
        case Finishing => action != Finish || old(availInExpect) != |nextIn| || Idled(nextIn, old(delivered))
      ensures code == ParamError ==> mode == Running && input == nextIn && delivered == old(delivered)
      ensures code == SequenceError ==>
        input == nextIn && delivered == old(delivered) && mode == if old(mode) == Running then Finishing else old(mode)
    {
      hide Valid;
      Present(nextIn, space);
      match mode {
        case Idle =>
          code := SequenceError;
        case Running =>
          match action {
            case Run =>
              var progress := Handle();
              Leftover(old(consumed), nextIn);
              code := if progress then RunOk else ParamError;
            case Flush =>
              Begin(Flushing);
              code := ContinueFlush();
            case Finish =>
              Begin(Finishing);
              code := ContinueFinish();
            case Other =>
              code := ParamError;
          }
        case Flushing =>
          if action != Flush {
            return SequenceError;
          }
          code := ContinueFlush();
        case Finishing =>
          if action != Finish {
            return SequenceError;
          }
          code := ContinueFinish();
      }
      IdledUnchanged(old(consumed), nextIn, old(delivered), space);
    }
  }
}
