/** From a coded body back to the block, and the compressor's way to one. */
module BlockMeaning {
  import opened Sequences
  import opened Permutations
  import opened Rotations
  import opened Bwt
  import opened BwtVectors
  import opened MtfCoding
  import opened MtfValues
  import opened UsedBytes
  import opened BlockBody

  // ----- decoding ----------------------------------------------------------

  lemma StablePerm(l: seq<Byte>, st: seq<int>)
    requires |st| == |l| && forall i :: 0 <= i < |l| ==> st[i] == Stable(l, i)
    ensures IsPerm(st)
  {
    forall i | 0 <= i < |l| ensures 0 <= st[i] < |l| {
      StableRange(l, i);
    }
    forall i, j | 0 <= i < j < |l| ensures st[i] != st[j] {
      StableInjective(l, i, j);
    }
  }

  /** Every last column has its vector of successors. */
  ghost function NextOf(l: seq<Byte>): (next: seq<int>)
    ensures IsNext(l, next)
  {
    var st := seq(|l|, i requires 0 <= i < |l| => Stable(l, i));
    StablePerm(l, st);
    NextFrom(l, st)
  }

  ghost function NextFrom(l: seq<Byte>, st: seq<int>): (next: seq<int>)
    requires |st| == |l| && IsPerm(st) && forall i :: 0 <= i < |l| ==> st[i] == Stable(l, i)
    ensures IsNext(l, next)
  {
    var next := seq(|l|, j requires 0 <= j < |l| => Where(st, j));
    NextFromIs(l, st, next);
    next
  }

  lemma NextFromIs(l: seq<Byte>, st: seq<int>, next: seq<int>)
    requires |st| == |l| == |next| && IsPerm(st) && forall i :: 0 <= i < |l| ==> st[i] == Stable(l, i)
    requires forall j :: 0 <= j < |l| ==> next[j] == Where(st, j)
    ensures IsNext(l, next)
  {
    forall i | 0 <= i < |l| ensures 0 <= Stable(l, i) < |l| && next[Stable(l, i)] == i {
      assert st[i] == Stable(l, i);
      assert st[Where(st, st[i])] == st[i];
    }
    FilledIsNext(l, next);
  }

  /** The bytes that numbers stand for. */
  ghost function BytesOf(ranks: seq<int>, listed: seq<Byte>): (l: seq<Byte>)
    requires forall k :: 0 <= k < |ranks| ==> 0 <= ranks[k] < |listed|
    ensures |l| == |ranks| && forall k :: 0 <= k < |ranks| ==> l[k] == listed[ranks[k]]
  {
    seq(|ranks|, k requires 0 <= k < |ranks| => listed[ranks[k]])
  }

  /** What the decoder makes of the last column and the origin. */
  ghost function Untransform(l: seq<Byte>, origPtr: nat): seq<Byte>
    requires origPtr < |l|
  {
    var next := NextOf(l);
    seq(|l|, t requires 0 <= t < |l| => l[Row(next, origPtr, t + 1)])
  }

  /** The last column a body codes, with the decoder's checks. */
  ghost function LastOf(c: Coded): (l: Option<seq<Byte>>)
    ensures l.Some? ==> c.origPtr < |l.value|
  {
    if |c.inUse| != 256 then None
    else
      var listed := Listed(c.inUse, 256);
      var d := Decode(Start(|listed|), c.syms, Eob(c.inUse));
      if !d.ok || !(forall k :: 0 <= k < |d.out| ==> 0 <= d.out[k] < |listed|) || c.origPtr >= |d.out| then None
      else Some(BytesOf(d.out, listed))
  }

  /** The decoder's whole way back from a body. */
  ghost function DecodeBody(c: Coded): Option<seq<Byte>> {
    match LastOf(c)
    case None => None
    case Some(l) => Some(Untransform(l, c.origPtr))
  }

  // ----- what a body means -------------------------------------------------

  ghost predicate UsedExactly(inUse: seq<bool>, b: seq<Byte>) {
    |inUse| == 256 && forall c: Byte :: inUse[c] <==> c in b
  }

  /** The number of every byte. */
  ghost function Numbers(inUse: seq<bool>): (u: seq<int>)
    requires |inUse| == 256
    ensures |u| == 256 && forall c :: 0 <= c < 256 ==> u[c] == Rank(inUse, c)
  {
    seq(256, c requires 0 <= c < 256 => Rank(inUse, c))
  }

  ghost predicate Means(c: Coded, b: seq<Byte>, order: seq<int>) {
    && b != [] && SortedRotations(b, order) && c.origPtr < |b| && order[c.origPtr] == 0 && UsedExactly(c.inUse, b)
    && Encodes(c.syms, Eob(c.inUse), Ranks(b, order, Numbers(c.inUse)))
  }

  lemma InBlock(b: seq<Byte>, order: seq<int>, k: nat)
    requires |order| == |b| && IsPerm(order) && k < |b|
    ensures LastColumn(b, order)[k] in b
  {
  }

  /** The numbers of the last column lead back to its bytes. */
  lemma RanksLeadBack(inUse: seq<bool>, b: seq<Byte>, order: seq<int>, k: nat)
    requires UsedExactly(inUse, b) && |order| == |b| && IsPerm(order) && k < |b|
    ensures var r := Ranks(b, order, Numbers(inUse))[k];
      0 <= r < |Listed(inUse, 256)| && Listed(inUse, 256)[r] == LastColumn(b, order)[k]
  {
    InBlock(b, order, k);
    ListedRank(inUse, LastColumn(b, order)[k], 256);
  }

  lemma UntransformIs(b: seq<Byte>, order: seq<int>, o: nat)
    requires b != [] && SortedRotations(b, order) && o < |b| && order[o] == 0
    ensures Untransform(LastColumn(b, order), o) == b
  {
    var l := LastColumn(b, order);
    var next := NextOf(l);
    var r := Untransform(l, o);
    forall t | 0 <= t < |b| ensures r[t] == b[t] {
      WalkReadsBlock(b, order, next, o, t);
    }
  }

  /** It holds the last column of the block it means. */
  lemma LastIs(c: Coded, b: seq<Byte>, order: seq<int>)
    requires Means(c, b, order)
    ensures LastOf(c) == Some(LastColumn(b, order))
  {
    var listed, ranks := Listed(c.inUse, 256), Ranks(b, order, Numbers(c.inUse));
    hide Untransform, Decode, Listed, Rank;
    forall k | 0 <= k < |ranks| ensures 0 <= ranks[k] < |listed| && listed[ranks[k]] == LastColumn(b, order)[k] {
      RanksLeadBack(c.inUse, b, order, k);
    }
    assert BytesOf(ranks, listed) == LastColumn(b, order);
  }

  /** A body decodes to the block it means. */
  lemma Decodes(c: Coded, b: seq<Byte>, order: seq<int>)
    requires Means(c, b, order)
    ensures DecodeBody(c) == Some(b)
  {
    hide Untransform, LastOf;
    LastIs(c, b, order);
    UntransformIs(b, order, c.origPtr);
  }
}
