/** How many bits a block body can take, and that they always fit behind the
    block in the array they share. */
module Capacity {
  import opened Arithmetic
  import opened Sizes
  import opened BitStream
  import opened SideInfo
  import opened Codes
  import opened UsedBytes
  import opened BlockBody
  import opened SendBlock

  lemma {:induction false} UnaryLength(j: nat)
    ensures |Unary(j)| == j + 1
  {
    if j > 0 {
      UnaryLength(j - 1);
    }
  }

  lemma {:induction false} UnariesLength(js: seq<nat>, limit: nat)
    requires Placed(js, limit)
    ensures |Unaries(js)| <= limit * |js|
  {
    if js != [] {
      UnariesLength(js[..|js| - 1], limit);
      UnaryLength(js[|js| - 1]);
      assert limit * |js| == limit * (|js| - 1) + limit;
    }
  }

  lemma {:induction false} DeltaLength(curr: nat, len: nat)
    ensures |Delta(curr, len)| == 1 + 2 * if curr < len then len - curr else curr - len
    decreases if curr < len then len - curr else curr - len
  {
    if curr < len {
      DeltaLength(curr + 1, len);
    } else if curr > len {
      DeltaLength(curr - 1, len);
    }
  }

  lemma {:induction false} DeltasLength(curr: nat, lens: seq<nat>)
    requires 1 <= curr <= MAX_LEN && forall i :: 0 <= i < |lens| ==> 1 <= lens[i] <= MAX_LEN
    ensures |Deltas(curr, lens)| <= 33 * |lens|
  {
    if lens != [] {
      var front := lens[..|lens| - 1];
      DeltasLength(curr, front);
      DeltaLength(if front == [] then curr else front[|front| - 1], lens[|lens| - 1]);
    }
  }

  lemma TableLength(lens: seq<nat>, alphaSize: nat)
    requires Usable(lens, alphaSize) && lens != []
    ensures |TableBits(lens)| <= 5 + 33 * alphaSize
  {
    DeltasLength(lens[0], lens);
  }

  lemma {:induction false} TablesLength(lens: seq<seq<nat>>, alphaSize: nat)
    requires AllUsable(lens, |lens|, alphaSize) && forall t :: 0 <= t < |lens| ==> lens[t] != []
    ensures |Tables(lens)| <= (5 + 33 * alphaSize) * |lens|
  {
    hide Usable, TableBits;
    if lens != [] {
      var front, last := lens[..|lens| - 1], lens[|lens| - 1];
      TablesLength(front, alphaSize);
      TableLength(last, alphaSize);
      OneMore(5 + 33 * alphaSize, |front|);
    }
  }

  lemma {:induction false} RowsLength(inUse: seq<bool>, i: nat)
    requires |inUse| == 256 && i <= 16
    ensures |Rows(inUse, i)| <= 16 * (16 - i)
    decreases 16 - i
  {
    if i < 16 {
      RowsLength(inUse, i + 1);
    }
  }

  lemma {:induction false} DataLength(lens: seq<seq<nat>>, sel: seq<int>, syms: seq<nat>, k: nat, alphaSize: nat)
    requires AllCodable(lens, sel, syms) && k <= |syms| && AllUsable(lens, |lens|, alphaSize)
    ensures |DataBits(lens, sel, syms, k)| <= MAX_LEN * k
  {
    hide Code;
    if k > 0 {
      DataLength(lens, sel, syms, k - 1, alphaSize);
      assert Codable(lens, sel, syms, k - 1);
      assert Usable(lens[sel[(k - 1) / BZ_G_SIZE]], alphaSize);
    }
  }

  /** The most bits the body of a block of n bytes can take. */
  function BodyLimit(n: nat): nat {
    1 + 24 + 272 + 3 + 15 + BZ_N_GROUPS * ((n + 1 + BZ_G_SIZE - 1) / BZ_G_SIZE)
      + (5 + 33 * BZ_MAX_ALPHA_SIZE) * BZ_N_GROUPS + MAX_LEN * (n + 1)
  }

  lemma BodyLength(c: Coded, n: nat)
    requires WellCoded(c) && AllUsable(c.lens, |c.lens|, Eob(c.inUse) + 1) && |c.syms| <= n + 1
    requires |c.places| == (|c.syms| + BZ_G_SIZE - 1) / BZ_G_SIZE
    ensures |BodyBits(c)| <= BodyLimit(n)
  {
    hide AllCodable, Rank, AllUsable, Placed, Lengths, Ended, Unaries, Tables, DataBits, Rows, Low, Selectors, Pow2;
    var sel := Selectors(c.places, |c.lens|);
    RowsLength(c.inUse, 0);
    UnariesLength(c.places, |c.lens|);
    CodedParts(c);
    TablesLength(c.lens, Eob(c.inUse) + 1);
    DataLength(c.lens, sel, c.syms, |c.syms|, Eob(c.inUse) + 1);
    RankSmall(c.inUse);
    Products(|c.lens|, |c.places|, Eob(c.inUse) + 1);
    Lengths6(c);
  }

  lemma Lengths6(c: Coded)
    requires WellCoded(c)
    ensures |c.lens| <= BZ_N_GROUPS
  {
  }

  lemma RankSmall(inUse: seq<bool>)
    requires |inUse| == 256
    ensures Eob(inUse) + 1 <= BZ_MAX_ALPHA_SIZE
  {
  }

  lemma Products(groups: nat, places: nat, alphaSize: nat)
    requires groups <= BZ_N_GROUPS && alphaSize <= BZ_MAX_ALPHA_SIZE
    ensures groups * places <= BZ_N_GROUPS * places
    ensures (5 + 33 * alphaSize) * groups <= (5 + 33 * BZ_MAX_ALPHA_SIZE) * BZ_N_GROUPS
  {
    var w := 5 + 33 * alphaSize;
    assert w * groups <= w * BZ_N_GROUPS by {
      MulMonotone(w, groups, BZ_N_GROUPS);
    }
    MulMonotone(places, groups, BZ_N_GROUPS);
  }

  /** Bytes of the array the block and its output share. */
  function ArrayBytes(level: nat): nat {
    4 * (100000 * level + BZ_N_OVERSHOOT)
  }

  /** Everything written for one block, with what was left in the buffer, the
      header and the trailer, fits behind the block. */
  lemma BlockFits(level: nat, nblock: nat, bits: nat, zbytes: nat)
    requires 1 <= level <= 9 && nblock <= 100000 * level - 10 && 8 * zbytes <= bits
    requires bits <= 32 + 32 + 48 + 32 + BodyLimit(nblock) + 48 + 32 + 7
    ensures nblock + zbytes <= ArrayBytes(level)
  {
  }
}
