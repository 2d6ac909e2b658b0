/** The input side of the compressor: bytes are collected into a pending run,
    and runs are written to the block. */
module RunBlocks {
  import opened Checksums
  import opened Rotations
  import opened Rle

  /** A block holds exactly these runs, with the checksum of the bytes they
      stand for and the set of bytes the block itself is made of. */
  ghost predicate Built<R>(sum: Checksum<R>, content: seq<Byte>, inUse: seq<bool>, crc: R, pairs: seq<Pair>) {
    && (forall i :: 0 <= i < |pairs| ==> 0 < pairs[i].len < 256)
    && content == WrittenAll(pairs) && crc == sum.Over(Expand(pairs))
    && |inUse| == 256 && forall c: Byte :: inUse[c] <==> c in content
  }

  /** The bytes used once p is written as well. */
  function Using(inUse: seq<bool>, p: Pair): seq<bool>
    requires |inUse| == 256 && 0 < p.len < 256
  {
    var used := inUse[p.ch := true];
    if p.len < 4 then used else used[p.len - 4 := true]
  }

  lemma UsingIs(inUse: seq<bool>, content: seq<Byte>, p: Pair)
    requires |inUse| == 256 && 0 < p.len < 256 && forall c: Byte :: inUse[c] <==> c in content
    ensures forall c: Byte :: Using(inUse, p)[c] <==> c in content + Written(p)
  {
    forall c: Byte ensures Using(inUse, p)[c] <==> c in content + Written(p) {
      if p.len < 4 {
        assert Written(p)[0] == p.ch;
      }
    }
  }

  lemma BuiltMore<R>(sum: Checksum<R>, content: seq<Byte>, inUse: seq<bool>, crc: R, pairs: seq<Pair>, p: Pair, crc': R)
    requires Built(sum, content, inUse, crc, pairs) && 0 < p.len < 256
    requires crc' == sum.Over(Expand(pairs) + Repeat(p.ch, p.len))
    ensures Built(sum, content + Written(p), Using(inUse, p), crc', pairs + [p])
  {
    WrittenMore(pairs, p);
    ExpandMore(pairs, p);
    UsingIs(inUse, content, p);
    hide Written, WrittenAll, Expand, Using;
  }

  lemma BuiltNothing<R>(sum: Checksum<R>)
    ensures Built(sum, [], seq(256, i => false), sum.initial, [])
  {
  }

  /** Runs stay runs when the last one grows or a different one follows. */
  lemma RunsGrow(pairs: seq<Pair>, p: Pair)
    requires Runs(pairs + [p]) && p.len < 255
    ensures Runs(pairs + [Pair(p.ch, p.len + 1)])
  {
    var a, b := pairs + [p], pairs + [Pair(p.ch, p.len + 1)];
    forall i, j | 0 <= i && j == i + 1 < |b| ensures b[i].ch != b[j].ch || b[i].len == 255 {
      assert a[i].ch != a[j].ch || a[i].len == 255;
      assert a[i].ch == b[i].ch && a[j].ch == b[j].ch && b[i].len == a[i].len;
    }
    forall i | 0 <= i < |b| ensures 0 < b[i].len < 256 {
      assert 0 < a[i].len < 256;
    }
  }

  lemma RunsFollow(pairs: seq<Pair>, p: Pair)
    requires Runs(pairs) && 0 < p.len < 256
    requires pairs != [] ==> pairs[|pairs| - 1].ch != p.ch || pairs[|pairs| - 1].len == 255
    ensures Runs(pairs + [p])
  {
  }

  lemma RunsFront(pairs: seq<Pair>, p: Pair)
    requires Runs(pairs + [p])
    ensures Runs(pairs) && 0 < p.len < 256
  {
    var a := pairs + [p];
    assert a[|pairs|] == p;
    forall i, j | 0 <= i && j == i + 1 < |pairs| ensures pairs[i].ch != pairs[j].ch || pairs[i].len == 255 {
      assert a[i] == pairs[i] && a[j] == pairs[j];
    }
    forall i | 0 <= i < |pairs| ensures 0 < pairs[i].len < 256 {
      assert a[i] == pairs[i];
    }
  }

  lemma RepeatMore(c: Byte, n: nat)
    ensures Repeat(c, n + 1) == Repeat(c, n) + [c]
  {
  }

  /** Marks an empty pending run. */
  const NONE := 256

  class RunBlock<R> {
    const sum: Checksum<R>
    const block: array<Byte>
    var nblock: nat
    var inUse: seq<bool>
    var crc: R
    var inCh: int
    var inLen: int
    ghost var pairs: seq<Pair>

    ghost function Content(): seq<Byte>
      requires nblock <= block.Length
      reads this`nblock, block
    {
      block[..nblock]
    }

    /** isempty_RL */
    predicate Empty()
      reads this`inCh, this`inLen
    {
      !(inCh < NONE && inLen > 0)
    }

    /** What has been written, without the pending run. */
    ghost predicate Consistent()
      reads this`nblock, this`inUse, this`crc, this`pairs, block
    {
      nblock <= block.Length && Built(sum, Content(), inUse, crc, pairs)
    }

    ghost predicate HasPending()
      reads this`inCh, this`inLen
    {
      0 <= inCh < NONE && 0 < inLen < 256
    }

    /** All runs so far, the pending one included. */
    ghost function All(): seq<Pair>
      reads this`inCh, this`inLen, this`pairs
    {
      if HasPending() then pairs + [Pair(inCh, inLen)] else pairs
    }

    /** The pending run alone. */
    ghost function Pending(): seq<Pair>
      reads this`inCh, this`inLen
    {
      if HasPending() then [Pair(inCh, inLen)] else []
    }

    lemma AllIs()
      ensures All() == pairs + Pending() && Expand(All()) == Expand(pairs) + Expand(Pending())
    {
      if HasPending() {
        ExpandMore(pairs, Pair(inCh, inLen));
        ExpandMore([], Pair(inCh, inLen));
        assert [] + [Pair(inCh, inLen)] == [Pair(inCh, inLen)];
      }
    }

    ghost predicate Valid()
      reads this, block
    {
      Consistent() && Runs(All()) && (HasPending() || (inCh == NONE && inLen == 0))
    }

    constructor (checksum: Checksum<R>, capacity: nat)
      ensures Valid() && fresh(block) && block.Length == capacity && sum == checksum
      ensures pairs == [] && nblock == 0 && Empty()
    {
      sum, block, nblock, inUse, crc := checksum, new Byte[capacity], 0, seq(256, i => false), checksum.initial;
      inCh, inLen, pairs := NONE, 0, [];
      new;
      BuiltNothing(checksum);
      assert Content() == [];
    }

    /** init_RL */
    method InitRL()
      modifies this`inCh, this`inLen
      ensures inCh == NONE && inLen == 0
    {
      inCh, inLen := NONE, 0;
    }

    /** prepare_new_block: the pending run goes into the next block. */
    method Prepare()
      requires Valid()
      modifies this`nblock, this`crc, this`inUse, this`pairs
      ensures Valid() && pairs == [] && nblock == 0
    {
      nblock, crc, inUse, pairs := 0, sum.initial, seq(256, i => false), [];
      BuiltNothing(sum);
      assert Content() == [];
    }

    method Put(c: Byte)
      requires nblock < block.Length
      modifies this`nblock, block
      ensures nblock == old(nblock) + 1 && Content() == old(Content()) + [c]
    {
      block[nblock] := c;
      nblock := nblock + 1;
    }

    /** Four equal bytes and a count. */
    method PutLong(ch: Byte, count: Byte)
      requires nblock + 5 <= block.Length
      modifies this`nblock, block
      ensures nblock == old(nblock) + 5 && Content() == old(Content()) + [ch, ch, ch, ch, count]
    {
      Put(ch);
      Put(ch);
      Put(ch);
      Put(ch);
      Put(count);
    }

    /** The bytes of the pending run, as they go into the block. */
    method PutRun(ch: Byte, len: int)
      requires 0 < len < 256 && nblock + 5 <= block.Length
      modifies this`nblock, block
      ensures nblock <= block.Length && Content() == old(Content()) + Written(Pair(ch, len))
      ensures nblock <= old(nblock) + 5
    {
      match len {
        case 1 =>
          Put(ch);
          assert Repeat(ch, 1) == [ch];
        case 2 =>
          Put(ch);
          Put(ch);
          assert Repeat(ch, 2) == [ch] + [ch];
        case 3 =>
          Put(ch);
          Put(ch);
          Put(ch);
          assert Repeat(ch, 3) == [ch] + [ch] + [ch];
        case _ =>
          PutLong(ch, len - 4);
      }
    }

    /** The checksum of the pending run's bytes. */
    method Sum(ghost before: seq<Byte>)
      requires HasPending() && crc == sum.Over(before)
      modifies this`crc
      ensures crc == sum.Over(before + Repeat(inCh, inLen))
    {
      assert before + Repeat(inCh, 0) == before;
      for i := 0 to inLen
        invariant crc == sum.Over(before + Repeat(inCh, i))
      {
        RepeatMore(inCh, i);
        sum.More(before + Repeat(inCh, i), inCh);
        assert before + Repeat(inCh, i + 1) == before + Repeat(inCh, i) + [inCh];
        crc := sum.update(crc, inCh);
      }
    }

    lemma Start()
      requires Consistent()
      ensures crc == sum.Over(Expand(pairs)) && |inUse| == 256 && nblock <= block.Length
    {
    }

    lemma NothingWritten()
      requires Consistent()
      ensures nblock == 0 <==> pairs == []
    {
      if pairs != [] {
        assert |Written(pairs[0])| > 0;
      }
    }

    /** The bytes in use are exactly those of the block. */
    lemma ContentUsed()
      requires Consistent() && pairs != []
      ensures nblock <= block.Length && |inUse| == 256 && (forall c: Byte :: inUse[c] <==> c in Content())
        && Content() != []
      ensures Content() == block[..nblock]
    {
      NothingWritten();
    }

    lemma PairsAreRuns()
      requires Valid()
      ensures Runs(pairs) && Content() == WrittenAll(pairs)
    {
      if HasPending() {
        RunsFront(pairs, Pair(inCh, inLen));
      }
    }

    /** add_pair_to_block */
    method AddPair()
      requires Consistent() && HasPending() && nblock + 5 <= block.Length
      modifies this`nblock, this`inUse, this`crc, this`pairs, block
      ensures Consistent() && pairs == old(pairs) + [Pair(inCh, inLen)] && nblock <= old(nblock) + 5
    {
      hide Built, Expand, Written, WrittenAll;
      Start();
      ghost var p, content, used, crc0 := Pair(inCh, inLen), Content(), inUse, crc;
      Sum(Expand(pairs));
      inUse := inUse[inCh := true];
      if inLen >= 4 {
        inUse := inUse[inLen - 4 := true];
      }
      PutRun(inCh, inLen);
      BuiltMore(sum, content, used, crc0, pairs, p, crc);
      pairs := pairs + [p];
    }

    /** flush_RL */
    method Flush()
      requires Valid() && nblock + 5 <= block.Length
      modifies this, block
      ensures Valid() && Empty() && pairs == old(All()) && nblock <= old(nblock) + 5
    {
      hide Built, Runs;
      if inCh < NONE {
        AddPair();
      }
      InitRL();
    }

    /** The common case of ADD_CHAR_TO_BLOCK: the pending run is one byte and
        another follows. */
    method AddSingle()
      requires Consistent() && HasPending() && inLen == 1 && nblock + 5 <= block.Length
      modifies this`nblock, this`inUse, this`crc, this`pairs, block
      ensures Consistent() && pairs == old(pairs) + [Pair(inCh, inLen)] && nblock <= old(nblock) + 5
    {
      hide Built, Expand, WrittenAll;
      Start();
      ghost var p, content, used, crc0, before := Pair(inCh, inLen), Content(), inUse, crc, Expand(pairs);
      sum.More(before, inCh);
      crc := sum.update(crc, inCh);
      inUse := inUse[inCh := true];
      Put(inCh);
      assert Written(p) == [inCh as Byte] && Repeat(inCh, 1) == [inCh as Byte];
      BuiltMore(sum, content, used, crc0, pairs, p, crc);
      pairs := pairs + [p];
    }

    /** ADD_CHAR_TO_BLOCK: the runs stand for one byte more, and a run is
        always pending afterwards. */
    method AddChar(c: Byte)
      requires Valid() && nblock + 5 <= block.Length && (Empty() ==> pairs == [])
      modifies this, block
      ensures Valid() && !Empty() && Expand(All()) == old(Expand(All())) + [c] && nblock <= old(nblock) + 5
    {
      hide Built, Runs, Expand;
      ghost var was, runs := pairs, All();
      if c != inCh && inLen == 1 {
        AddSingle();
        inCh := c;
        Next(runs, c);
      } else if c != inCh || inLen == 255 {
        if inCh < NONE {
          AddPair();
        }
        inCh := c;
        inLen := 1;
        Next(runs, c);
      } else {
        Grow(was, Pair(inCh, inLen));
        inLen := inLen + 1;
      }
    }
  }

  lemma Next(runs: seq<Pair>, c: Byte)
    requires Runs(runs) && (runs != [] ==> runs[|runs| - 1].ch != c || runs[|runs| - 1].len == 255)
    ensures Runs(runs + [Pair(c, 1)]) && Expand(runs + [Pair(c, 1)]) == Expand(runs) + [c]
  {
    RunsFollow(runs, Pair(c, 1));
    ExpandMore(runs, Pair(c, 1));
    assert Repeat(c, 1) == [c];
  }

  lemma Grow(pairs: seq<Pair>, p: Pair)
    requires Runs(pairs + [p]) && p.len < 255
    ensures Runs(pairs + [Pair(p.ch, p.len + 1)])
    ensures Expand(pairs + [Pair(p.ch, p.len + 1)]) == Expand(pairs + [p]) + [p.ch]
  {
    RunsGrow(pairs, p);
    ExpandMore(pairs, p);
    ExpandMore(pairs, Pair(p.ch, p.len + 1));
    RepeatMore(p.ch, p.len);
  }
}
