/** The compressor's way from a sorted block to its body, whichever sort
    produced the order. */
module CompressBlock {
  import opened Arithmetic
  import opened Sequences
  import opened Sizes
  import opened Permutations
  import opened Rotations
  import opened Bwt
  import opened WordBytes
  import opened BitWriters
  import opened MtfCoding
  import opened MtfValues
  import opened UsedBytes
  import opened BlockBody
  import SendValues
  import opened SendBlock
  import opened BlockMeaning
  import BlockSort
  import opened Capacity

  /** The end of BZ2_blockSort: where the block itself is in the order. */
  method FindOrigin(ptr: array<int>, ghost order: seq<int>) returns (origPtr: nat)
    requires order != [] && IsPerm(order) && |order| <= ptr.Length
      && forall k :: 0 <= k < |order| ==> ptr[k] == order[k]
    ensures origPtr < |order| && order[origPtr] == 0
  {
    ghost var at := Where(order, 0);
    origPtr := 0;
    while ptr[origPtr] != 0
      invariant origPtr <= at
      decreases at - origPtr
    {
      origPtr := origPtr + 1;
    }
  }

  lemma UsedSome(inUse: seq<bool>, b: seq<Byte>)
    requires UsedExactly(inUse, b) && b != []
    ensures 1 <= Rank(inUse, 256) <= 256
  {
    assert inUse[b[0]];
    RankMonotone(inUse, b[0], 256);
  }

  /** Only numbers of bytes in the block matter. */
  lemma SameRanks(inUse: seq<bool>, b: seq<Byte>, order: seq<int>, u: seq<int>)
    requires UsedExactly(inUse, b) && |order| == |b| && IsPerm(order)
    requires |u| == 256 && forall c :: 0 <= c < 256 && inUse[c] ==> u[c] == Rank(inUse, c)
    ensures Ranks(b, order, u) == Ranks(b, order, Numbers(inUse)) && Numbered(b, u, Rank(inUse, 256))
  {
    forall k | 0 <= k < |b| ensures Ranks(b, order, u)[k] == Ranks(b, order, Numbers(inUse))[k] {
      InBlock(b, order, k);
    }
    forall k | 0 <= k < |b| ensures 0 <= u[b[k]] < Rank(inUse, 256) {
      assert inUse[b[k]];
      RankMonotone(inUse, b[k], 256);
    }
  }

  /** generateMTFValues, and the values and frequencies it leaves. */
  method MtfValuesOf(block: seq<Byte>, inUse: seq<bool>, arr1: array<int>, ghost order: seq<int>)
      returns (syms: seq<nat>, freq: seq<nat>)
    requires block != [] && |block| < WEIGHT_LIMIT && UsedExactly(inUse, block)
    requires |order| == |block| <= arr1.Length && IsPerm(order) && forall k :: 0 <= k < |order| ==> arr1[k] == order[k]
    modifies arr1
    ensures Encodes(syms, Eob(inUse), Ranks(block, order, Numbers(inUse))) && |syms| <= |block| + 1
    ensures freq == Frequencies(syms, Eob(inUse) + 1) && forall k :: 0 <= k < |syms| ==> syms[k] <= Eob(inUse)
  {
    hide Encodes, Ranks, Decode, LastColumn;
    UsedSome(inUse, block);
    var unseqToSeq := new int[256];
    var nInUse := MakeMaps(inUse, unseqToSeq);
    SameRanks(inUse, block, order, unseqToSeq[..]);
    var mtfFreq := new int[BZ_MAX_ALPHA_SIZE];
    var gen := new Generator(arr1, mtfFreq, nInUse);
    gen.Generate(block, unseqToSeq[..], order);
    syms, freq := ReadOut(gen);
  }

  /** mtfv[0..nMTF] and mtfFreq[0..alphaSize] */
  method ReadOut(gen: Generator) returns (syms: seq<nat>, freq: seq<nat>)
    requires gen.Kept()
    ensures syms == gen.syms && freq == Frequencies(gen.syms, gen.eob + 1)
      && forall k :: 0 <= k < |syms| ==> syms[k] <= gen.eob
  {
    hide GetHalf, Frequency;
    syms, freq := [], [];
    for k := 0 to gen.wr
      invariant syms == gen.syms[..k]
    {
      syms := syms + [GetHalf(gen.arr1[..], k)];
    }
    for s := 0 to gen.eob + 1
      invariant |freq| == s && forall v :: 0 <= v < s ==> freq[v] == Frequency(gen.syms, v)
    {
      freq := freq + [gen.mtfFreq[s]];
    }
  }

  lemma EncodesEnded(syms: seq<nat>, eob: nat, ranks: seq<int>)
    requires eob > 0 && Encodes(syms, eob, ranks)
    ensures Ended(syms, eob)
  {
  }

  lemma OriginFits(origPtr: nat)
    requires origPtr < 900000
    ensures origPtr < Pow2(24)
  {
    Pow2Add(12, 12);
    assert Pow2(12) == 4096;
  }

  /** The body of a block: what is written decodes to the block. */
  method WriteBody(w: BitWriter, block: seq<Byte>, inUse: seq<bool>, arr1: array<int>, ghost order: seq<int>)
      returns (c: Coded)
    requires w.Valid() && w.bsLive >= 0 && block != [] && |block| <= 900000 - 10 && UsedExactly(inUse, block)
    requires SortedRotations(block, order) && |order| <= arr1.Length
      && forall k :: 0 <= k < |order| ==> arr1[k] == order[k]
    modifies w, arr1
    ensures w.Valid() && w.bsLive >= 0 && WellCoded(c) && w.Bits() == old(w.Bits()) + BodyBits(c)
    ensures WellChosen(c) && Means(c, block, order) && DecodeBody(c) == Some(block)
      && |BodyBits(c)| <= BodyLimit(|block|)
  {
    hide Encodes, Ended, Ranks, Decode, WellCoded, WellChosen, BitWriter.Valid, BitWriter.Bits, BodyBits, BodyLimit,
      AllUsable,
      DecodeBody, UsedExactly, Frequencies, Rank;
    UsedIs(inUse, block);
    SortedPerm(block, order);
    UsedSome(inUse, block);
    var origPtr := FindOrigin(arr1, order);
    OriginFits(origPtr);
    var syms, freq := MtfValuesOf(block, inUse, arr1, order);
    EncodesEnded(syms, Eob(inUse), Ranks(block, order, Numbers(inUse)));
    SendValues.SelectorsFit(|block|, |syms|);
    c := SendBody(w, origPtr, inUse, syms, freq);
    Decodes(c, block, order);
    BodyLength(c, |block|);
  }

  lemma UsedIs(inUse: seq<bool>, b: seq<Byte>)
    requires UsedExactly(inUse, b)
    ensures |inUse| == 256
  {
  }

  lemma SortedPerm(b: seq<Byte>, order: seq<int>)
    requires SortedRotations(b, order)
    ensures |order| == |b| && IsPerm(order)
  {
  }

  // ----- sorting and coding a block ----------------------------------------

  /** Bits that are a body of the block b. */
  ghost predicate IsBody(bits: seq<bool>, b: seq<Byte>) {
    exists c: Coded :: WellCoded(c) && bits == BodyBits(c) && DecodeBody(c) == Some(b)
  }

  /** BZ2_blockSort, then the body. */
  method CodeBlock(w: BitWriter, block: seq<Byte>, inUse: seq<bool>, workFactor: int) returns (ghost body: seq<bool>)
    requires w.Valid() && w.bsLive >= 0 && block != [] && |block| <= 900000 - 10 && UsedExactly(inUse, block)
    modifies w
    ensures w.Valid() && w.bsLive >= 0 && w.Bits() == old(w.Bits()) + body && IsBody(body, block)
      && |body| <= BodyLimit(|block|)
  {
    hide SortedRotations, UsedExactly, WellCoded, Means, DecodeBody, BitWriter.Valid, BitWriter.Bits, BodyBits,
      BodyLimit;
    var n := |block|;
    var arr1 := new int[n];
    BlockSort.SortBlock(arr1, block, workFactor);
    SortedPerm(block, arr1[..]);
    var c := WriteBody(w, block, inUse, arr1, arr1[..]);
    body := BodyBits(c);
  }
}
