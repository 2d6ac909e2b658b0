/** Writing a block body, part by part, through the bit writer. */
module SendBits {
  import opened Arithmetic
  import opened Sequences
  import opened Sizes
  import opened BitStream
  import opened BitWriters
  import opened SideInfo
  import opened Codes
  import opened BlockBody

  lemma TwoBits()
    ensures Low(2, 2) == [true, false] && Low(3, 2) == [true, true] && Pow2(2) == 4
    ensures Low(0, 1) == [false] && Low(1, 1) == [true] && Pow2(1) == 2
  {
    assert Bit(2, 1) && Bit(3, 1) && !Bit(2, 0) && Bit(3, 0);
  }

  method PutBit(w: BitWriter, b: bool)
    requires w.Valid() && w.bsLive >= 0
    modifies w
    ensures w.Valid() && w.bsLive >= 0 && w.Bits() == old(w.Bits()) + [b]
  {
    hide *;
    TwoBits();
    if b {
      w.W(1, 1);
    } else {
      w.W(1, 0);
    }
  }

  /** inUse16 */
  method MarkRows(inUse: seq<bool>) returns (marks: seq<bool>)
    requires |inUse| == 256
    ensures marks == RowMarks(inUse)
  {
    marks := [];
    for i := 0 to 16
      invariant |marks| == i && forall k :: 0 <= k < i ==> marks[k] == RowUsed(inUse, k)
    {
      var used := false;
      for j := 0 to 16
        invariant used == exists k :: 16 * i <= k < 16 * i + j && inUse[k]
      {
        if inUse[i * 16 + j] {
          used := true;
        }
      }
      marks := marks + [used];
    }
  }

  method WriteMap(w: BitWriter, inUse: seq<bool>)
    requires w.Valid() && w.bsLive >= 0 && |inUse| == 256
    modifies w
    ensures w.Valid() && w.bsLive >= 0 && w.Bits() == old(w.Bits()) + MapBits(inUse)
  {
    hide *;
    var marks := MarkRows(inUse);
    w.PutBits(marks);
    WriteRows(w, inUse, marks);
    MapIs(inUse);
  }

  lemma MapIs(inUse: seq<bool>)
    requires |inUse| == 256
    ensures MapBits(inUse) == RowMarks(inUse) + Rows(inUse, 0)
  {
  }

  lemma MarkIs(inUse: seq<bool>, i: nat)
    requires |inUse| == 256 && i < 16
    ensures |RowMarks(inUse)| == 16 && RowMarks(inUse)[i] == RowUsed(inUse, i)
  {
  }

  /** The rows from i on complete those before it. */
  ghost predicate RowsDone(inUse: seq<bool>, done: seq<bool>, i: nat)
    requires |inUse| == 256 && i <= 16
  {
    done + Rows(inUse, i) == Rows(inUse, 0)
  }

  lemma RowDone(inUse: seq<bool>, done: seq<bool>, i: nat)
    requires |inUse| == 256 && i < 16 && RowsDone(inUse, done, i)
    ensures RowsDone(inUse, done + if RowUsed(inUse, i) then inUse[16 * i..16 * i + 16] else [], i + 1)
  {
    hide RowUsed;
    var row := if RowUsed(inUse, i) then inUse[16 * i..16 * i + 16] else [];
    assert Rows(inUse, i) == row + Rows(inUse, i + 1);
    hide Rows;
    Assoc(done, row, Rows(inUse, i + 1));
  }

  lemma RowsAll(inUse: seq<bool>, done: seq<bool>)
    requires |inUse| == 256 && RowsDone(inUse, done, 16)
    ensures done == Rows(inUse, 0)
  {
    assert Rows(inUse, 16) == [];
  }

  method WriteRows(w: BitWriter, inUse: seq<bool>, marks: seq<bool>)
    requires w.Valid() && w.bsLive >= 0 && |inUse| == 256 && marks == RowMarks(inUse)
    modifies w
    ensures w.Valid() && w.bsLive >= 0 && w.Bits() == old(w.Bits()) + Rows(inUse, 0)
  {
    hide *;
    ghost var done := [];
    RowsBegin(inUse);
    MarkIs(inUse, 0);
    for i := 0 to 16
      invariant w.Valid() && w.bsLive >= 0 && w.Bits() == old(w.Bits()) + done && RowsDone(inUse, done, i)
    {
      RowDone(inUse, done, i);
      MarkIs(inUse, i);
      if marks[i] {
        w.PutBits(inUse[16 * i..16 * i + 16]);
        Assoc(old(w.Bits()), done, inUse[16 * i..16 * i + 16]);
        done := done + inUse[16 * i..16 * i + 16];
      } else {
        assert done + [] == done;
      }
    }
    RowsAll(inUse, done);
  }

  lemma RowsBegin(inUse: seq<bool>)
    requires |inUse| == 256
    ensures RowsDone(inUse, [], 0)
  {
    assert [] + Rows(inUse, 0) == Rows(inUse, 0);
  }

  method WriteUnary(w: BitWriter, j: nat)
    requires w.Valid() && w.bsLive >= 0
    modifies w
    ensures w.Valid() && w.bsLive >= 0 && w.Bits() == old(w.Bits()) + Unary(j)
  {
    hide BitWriter.Valid, BitWriter.Bits;
    ghost var done := [];
    for i := 0 to j
      invariant w.Valid() && w.bsLive >= 0 && w.Bits() == old(w.Bits()) + done && done + Unary(j - i) == Unary(j)
    {
      PutBit(w, true);
      assert done + [true] + Unary(j - i - 1) == done + Unary(j - i);
      done := done + [true];
    }
    PutBit(w, false);
  }

  method WriteSelectors(w: BitWriter, nGroups: nat, places: seq<nat>)
    requires w.Valid() && w.bsLive >= 0 && nGroups < 8 && |places| < 32768
    modifies w
    ensures w.Valid() && w.bsLive >= 0
      && w.Bits() == old(w.Bits()) + (Low(nGroups, 3) + (Low(|places|, 15) + Unaries(places)))
  {
    hide *;
    Powers();
    w.W(3, nGroups);
    w.W(15, |places|);
    WriteUnaries(w, places);
    Assoc(old(w.Bits()), Low(nGroups, 3), Low(|places|, 15));
    Assoc(old(w.Bits()), Low(nGroups, 3) + Low(|places|, 15), Unaries(places));
    Assoc(Low(nGroups, 3), Low(|places|, 15), Unaries(places));
  }

  lemma Powers()
    ensures Pow2(3) == 8 && Pow2(5) == 32 && Pow2(15) == 32768
  {
  }

  method WriteUnaries(w: BitWriter, places: seq<nat>)
    requires w.Valid() && w.bsLive >= 0
    modifies w
    ensures w.Valid() && w.bsLive >= 0 && w.Bits() == old(w.Bits()) + Unaries(places)
  {
    hide BitWriter.Valid, BitWriter.Bits, Unary;
    ghost var start := w.Bits();
    for i := 0 to |places|
      invariant w.Valid() && w.bsLive >= 0 && w.Bits() == start + Unaries(places[..i])
    {
      WriteUnary(w, places[i]);
      assert places[..i + 1][..i] == places[..i];
    }
    assert places[..|places|] == places;
  }

  /** The steps so far, and those from curr on, make up the length. */
  ghost predicate Stepped(from: nat, len: nat, done: seq<bool>, curr: int) {
    curr >= 0 && done + Delta(curr, len) == Delta(from, len)
  }

  lemma StepOn(from: nat, len: nat, done: seq<bool>, curr: int)
    requires Stepped(from, len, done, curr)
    ensures curr < len ==> Stepped(from, len, done + [true, false], curr + 1)
    ensures curr > len ==> Stepped(from, len, done + [true, true], curr - 1)
    ensures curr == len ==> done + [false] == Delta(from, len)
  {
    if curr < len {
      Assoc(done, [true, false], Delta(curr + 1, len));
    } else if curr > len {
      Assoc(done, [true, true], Delta(curr - 1, len));
    }
  }

  lemma StepsBegin(from: nat, len: nat)
    ensures Stepped(from, len, [], from)
  {
  }

  /** One length as steps from the one before. */
  method WriteDelta(w: BitWriter, from: nat, len: nat)
    requires w.Valid() && w.bsLive >= 0
    modifies w
    ensures w.Valid() && w.bsLive >= 0 && w.Bits() == old(w.Bits()) + Delta(from, len)
  {
    hide *;
    TwoBits();
    StepsBegin(from, len);
    var curr := from;
    ghost var done := [];
    while curr < len
      invariant w.Valid() && w.bsLive >= 0 && w.Bits() == old(w.Bits()) + done && Stepped(from, len, done, curr)
    {
      StepOn(from, len, done, curr);
      w.W(2, 2);
      Assoc(old(w.Bits()), done, [true, false]);
      done := done + [true, false];
      curr := curr + 1;
    }
    while curr > len
      invariant curr >= len
      invariant w.Valid() && w.bsLive >= 0 && w.Bits() == old(w.Bits()) + done && Stepped(from, len, done, curr)
    {
      StepOn(from, len, done, curr);
      w.W(2, 3);
      Assoc(old(w.Bits()), done, [true, true]);
      done := done + [true, true];
      curr := curr - 1;
    }
    StepOn(from, len, done, curr);
    w.W(1, 0);
    Assoc(old(w.Bits()), done, [false]);
  }

  method WriteTable(w: BitWriter, lens: seq<nat>)
    requires w.Valid() && w.bsLive >= 0 && lens != [] && lens[0] < 32
    modifies w
    ensures w.Valid() && w.bsLive >= 0 && w.Bits() == old(w.Bits()) + TableBits(lens)
  {
    hide BitWriter.Valid, BitWriter.Bits, Low, Pow2, Delta;
    Powers();
    var curr := lens[0];
    w.W(5, curr);
    ghost var start := w.Bits();
    for i := 0 to |lens|
      invariant w.Valid() && w.bsLive >= 0 && w.Bits() == start + Deltas(lens[0], lens[..i])
      invariant curr == if i == 0 then lens[0] else lens[i - 1]
    {
      WriteDelta(w, curr, lens[i]);
      assert lens[..i + 1][..i] == lens[..i];
      curr := lens[i];
    }
    assert lens[..|lens|] == lens;
  }

  method WriteTables(w: BitWriter, lens: seq<seq<nat>>, alphaSize: nat)
    requires w.Valid() && w.bsLive >= 0 && Lengths(lens, alphaSize)
    modifies w
    ensures w.Valid() && w.bsLive >= 0 && w.Bits() == old(w.Bits()) + Tables(lens)
  {
    hide BitWriter.Valid, BitWriter.Bits, TableBits;
    for t := 0 to |lens|
      invariant w.Valid() && w.bsLive >= 0 && w.Bits() == old(w.Bits()) + Tables(lens[..t])
    {
      WriteTable(w, lens[t]);
      assert lens[..t + 1][..t] == lens[..t];
    }
    assert lens[..|lens|] == lens;
  }

  ghost predicate Assigned(codes: seq<seq<nat>>, lens: seq<seq<nat>>) {
    |codes| == |lens| && forall t :: 0 <= t < |lens| ==> AssignedTo(codes[t], lens[t])
  }

  ghost predicate AssignedTo(code: seq<nat>, lens: seq<nat>) {
    |code| == |lens| && forall i :: 0 <= i < |lens| ==> code[i] == Code(lens, i)
  }

  /** The codes of one group. */
  method WriteGroup(w: BitWriter, code: seq<nat>, lens: seq<seq<nat>>, sel: seq<nat>, syms: seq<nat>, selCtr: nat,
      gs: nat, ge: nat, ghost before: seq<bool>)
    requires w.Valid() && w.bsLive >= 0 && AllCodable(lens, sel, syms) && gs <= ge < |syms|
    requires gs == BZ_G_SIZE * selCtr && ge < gs + BZ_G_SIZE && selCtr < |sel| && sel[selCtr] < |lens|
      && AssignedTo(code, lens[sel[selCtr]])
    requires w.Bits() == before + DataBits(lens, sel, syms, gs)
    modifies w
    ensures w.Valid() && w.bsLive >= 0 && w.Bits() == before + DataBits(lens, sel, syms, ge + 1)
  {
    hide BitWriter.Valid, BitWriter.Bits, Low, Pow2, Code;
    for i := gs to ge + 1
      invariant w.Valid() && w.bsLive >= 0 && w.Bits() == before + DataBits(lens, sel, syms, i)
    {
      assert Codable(lens, sel, syms, i) && i / BZ_G_SIZE == selCtr;
      w.W(lens[sel[selCtr]][syms[i]], code[syms[i]]);
      Assoc(before, DataBits(lens, sel, syms, i), ValueBits(lens, sel, syms, i));
    }
  }

  /** The codes of the values, group by group. */
  method WriteData(w: BitWriter, codes: seq<seq<nat>>, lens: seq<seq<nat>>, sel: seq<nat>, syms: seq<nat>)
    requires w.Valid() && w.bsLive >= 0 && AllCodable(lens, sel, syms) && Assigned(codes, lens)
    modifies w
    ensures w.Valid() && w.bsLive >= 0 && w.Bits() == old(w.Bits()) + DataBits(lens, sel, syms, |syms|)
  {
    hide BitWriter.Valid, BitWriter.Bits, AssignedTo, ValueBits;
    var gs, selCtr := 0, 0;
    while gs < |syms|
      invariant gs <= |syms| && (gs < |syms| ==> gs == BZ_G_SIZE * selCtr)
      invariant w.Valid() && w.bsLive >= 0 && w.Bits() == old(w.Bits()) + DataBits(lens, sel, syms, gs)
      decreases |syms| - gs
    {
      var ge := gs + BZ_G_SIZE - 1;
      if ge >= |syms| {
        ge := |syms| - 1;
      }
      assert Codable(lens, sel, syms, gs);
      WriteGroup(w, codes[sel[selCtr]], lens, sel, syms, selCtr, gs, ge, old(w.Bits()));
      gs := ge + 1;
      selCtr := selCtr + 1;
    }
  }
}
