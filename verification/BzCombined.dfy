/** The combined checksum of a bzip2 stream, bit by bit. */
module BzCombined {
  import opened Words
  import opened Rle
  import opened StreamFormat
  import opened BzCrc

  /** How many of the blocks from i on are not empty. */
  function After(closed: seq<Closed>, i: nat): nat
    requires i <= |closed|
    decreases |closed| - i
  {
    if i == |closed| then 0 else After(closed, i + 1) + if closed[i].runs != [] then 1 else 0
  }

  /** What block i contributes to bit k: one bit of its checksum, moved up by one
      place for every later block that is not empty. */
  function Contribution(closed: seq<Closed>, i: nat, k: nat): bool
    requires i < |closed| && k < 32
  {
    closed[i].runs != [] && BzSumming().Crc(Expand(closed[i].runs))[(k - After(closed, i + 1)) % 32]
  }

  /** Whether an odd number of the first i blocks contribute. */
  function Parity(closed: seq<Closed>, k: nat, i: nat): bool
    requires i <= |closed| && k < 32
  {
    i > 0 && Parity(closed, k, i - 1) != Contribution(closed, i - 1, k)
  }

  lemma {:induction false} AfterMore(closed: seq<Closed>, c: Closed, i: nat)
    requires i <= |closed|
    ensures After(closed + [c], i) == After(closed, i) + if c.runs != [] then 1 else 0
    decreases |closed| - i
  {
    if i < |closed| {
      AfterMore(closed, c, i + 1);
    } else {
      assert After(closed + [c], i + 1) == 0;
    }
  }

  lemma {:induction false} ParityMore(closed: seq<Closed>, c: Closed, k: nat, i: nat)
    requires i <= |closed| && k < 32
    ensures Parity(closed + [c], k, i) == Parity(closed, if c.runs != [] then (k - 1) % 32 else k, i)
  {
    hide Contribution;
    if i > 0 {
      ParityMore(closed, c, k, i - 1);
      ContributionMore(closed, c, i - 1, k);
    }
  }

  lemma ContributionMore(closed: seq<Closed>, c: Closed, i: nat, k: nat)
    requires i < |closed| && k < 32
    ensures Contribution(closed + [c], i, k) == Contribution(closed, i, if c.runs != [] then (k - 1) % 32 else k)
  {
    hide BzSumming, Expand, After;
    AfterMore(closed, c, i + 1);
    MovedUp(k, After(closed, i + 1));
  }

  lemma MovedUp(k: nat, d: nat)
    ensures (k - (d + 1)) % 32 == ((k - 1) % 32 - d) % 32
  {
  }

  lemma CombineBit(combined: Word, crc: Word, k: nat)
    requires k < 32
    ensures Combine(combined, crc)[k] == (combined[(k - 1) % 32] != crc[k])
  {
  }

  /** Bit k of the combined checksum is the parity of what the blocks contribute. */
  lemma {:induction false} CombinedBits(closed: seq<Closed>, k: nat)
    requires k < 32
    ensures BzSumming().Combined(closed)[k] == Parity(closed, k, |closed|)
  {
    hide Combine, Expand, BzSumming;
    if closed != [] {
      var front, c := closed[..|closed| - 1], closed[|closed| - 1];
      assert closed == front + [c];
      CombinedBits(front, if c.runs != [] then (k - 1) % 32 else k);
      BzSumming().CombinedMore(front, c);
      ParityMore(front, c, k, |front|);
      CombineIs(BzSumming().Combined(front), BzSumming().Crc(Expand(c.runs)));
      CombineBit(BzSumming().Combined(front), BzSumming().Crc(Expand(c.runs)), k);
      assert After(closed, |closed|) == 0;
    } else {
      StartsZero(k);
    }
  }

  lemma StartsZero(k: nat)
    requires k < 32
    ensures !BzSumming().zero[k]
  {
  }

  lemma CombineIs(combined: Word, crc: Word)
    ensures BzSumming().combine(combined, crc) == Combine(combined, crc)
  {
  }
}
