/** What the two output-side decoders share: the account of what has been
    delivered and what is left, and how a run's first bytes decide its length. */
module Delivery {
  import opened Sequences
  import opened Checksums
  import opened Rotations
  import opened Bwt
  import opened Rle

  /** What is still to be delivered: the rest of the current run, then the runs
      from position used - 1 of the block on. */
  ghost function Rest(b: seq<Byte>, ch: Byte, len: nat, used: nat): seq<Byte>
    requires used > 0
  {
    Repeat(ch, len) + UnRle(b, used - 1)
  }

  lemma RestRun(b: seq<Byte>, ch: Byte, p: nat)
    requires p < |b|
    ensures Rest(b, ch, 0, p + 1) == Rest(b, b[p], RunLength(b, p), RunEnd(b, p) + 1)
    ensures Corrupt(b, p) == Corrupt(b, RunEnd(b, p))
  {
    assert Repeat(ch, 0) == [];
  }

  lemma RestByte(b: seq<Byte>, ch: Byte, len: nat, used: nat)
    requires used > 0 && len > 0
    ensures Rest(b, ch, len, used) == [ch] + Rest(b, ch, len - 1, used)
  {
    assert Repeat(ch, len) == [ch] + Repeat(ch, len - 1);
  }

  /** The block and its sorted order, as the decoder received them. */
  datatype Source = Source(b: seq<Byte>, order: seq<int>, next: seq<int>, o: int) {
    ghost predicate Sound() {
      && b != [] && SortedRotations(b, order) && IsNext(LastColumn(b, order), next)
      && 0 <= o < |b| && order[o] == 0
    }
  }

  /** How the bytes that follow decide the length of a run. */
  lemma RunOfOne(b: seq<Byte>, p: nat)
    requires p < |b| && (p + 1 == |b| || At(b, p + 1) != b[p])
    ensures RunLength(b, p) == 1 && RunEnd(b, p) == p + 1
  {
    assert !Equal(b, p, 1);
  }

  lemma RunOfTwo(b: seq<Byte>, p: nat)
    requires p + 1 < |b| && At(b, p + 1) == b[p] && (p + 2 == |b| || At(b, p + 2) != b[p])
    ensures RunLength(b, p) == 2 && RunEnd(b, p) == p + 2
  {
    assert Equal(b, p, 1) && !Equal(b, p, 2);
  }

  lemma RunOfThree(b: seq<Byte>, p: nat)
    requires p + 2 < |b| && At(b, p + 1) == b[p] && At(b, p + 2) == b[p] && (p + 3 == |b| || At(b, p + 3) != b[p])
    ensures RunLength(b, p) == 3 && RunEnd(b, p) == p + 3
  {
    assert Equal(b, p, 1) && Equal(b, p, 2) && !Equal(b, p, 3);
  }

  lemma LongRun(b: seq<Byte>, p: nat)
    requires p + 3 < |b| && At(b, p + 1) == b[p] && At(b, p + 2) == b[p] && At(b, p + 3) == b[p]
    ensures RunLength(b, p) == 4 + At(b, p + 4) && RunEnd(b, p) == p + 5
  {
    assert Equal(b, p, 1) && Equal(b, p, 2) && Equal(b, p, 3);
  }

  lemma AtInside(b: seq<Byte>, i: nat)
    requires i < |b|
    ensures At(b, i) == b[i]
  {
  }

  /** Delivered bytes and `left` together are what the block stands for, the
      checksum is that of the delivered bytes, and what has been read of the
      block so far does not decide whether it breaks off. */
  ghost predicate Account<R>(sum: Checksum<R>, b: seq<Byte>, used: nat, delivered: seq<Byte>, crc: R, left: seq<Byte>)
    requires used > 0
  {
    && delivered + left == UnRle(b, 0) && crc == sum.Over(delivered)
    && (Corrupt(b, used - 1) <==> Corrupt(b, 0))
  }

  /** Before anything is delivered. */
  lemma FirstFetch<R>(sum: Checksum<R>, b: seq<Byte>, ch: Byte, k0: Byte)
    requires b != [] && k0 == At(b, 0)
    ensures Account(sum, b, 1, [], sum.initial, Rest(b, ch, 0, 1)) && k0 == b[0] && [] == Prefix(UnRle(b, 0), 0)
  {
    RestNone(b, ch, 1);
    hide UnRle, Corrupt;
  }

  lemma AccountEmit<R>(sum: Checksum<R>, b: seq<Byte>, used: nat, delivered: seq<Byte>, crc: R, ch: Byte,
      left: seq<Byte>)
    requires used > 0 && Account(sum, b, used, delivered, crc, [ch] + left)
    ensures Account(sum, b, used, delivered + [ch], sum.update(crc, ch), left)
  {
    hide UnRle, Corrupt;
    sum.More(delivered, ch);
    Assoc(delivered, [ch], left);
  }

  lemma AccountRun<R>(sum: Checksum<R>, b: seq<Byte>, used: nat, delivered: seq<Byte>, crc: R)
    requires 0 < used <= |b| && Account(sum, b, used, delivered, crc, UnRle(b, used - 1))
    ensures var p := used - 1;
      Account(sum, b, RunEnd(b, p) + 1, delivered, crc, Rest(b, b[p], RunLength(b, p), RunEnd(b, p) + 1))
  {
    RestRun(b, 0, used - 1);
    RestNone(b, 0, used);
    hide UnRle, Corrupt, RunEnd, RunLength;
  }

  lemma Broken<R>(sum: Checksum<R>, b: seq<Byte>, used: nat, delivered: seq<Byte>, crc: R)
    requires used > |b| + 1 && Account(sum, b, used, delivered, crc, UnRle(b, used - 1))
    ensures delivered == UnRle(b, 0) && Corrupt(b, 0)
  {
    assert UnRle(b, used - 1) == [];
  }

  lemma Finished<R>(sum: Checksum<R>, b: seq<Byte>, used: nat, delivered: seq<Byte>, crc: R)
    requires used == |b| + 1 && Account(sum, b, used, delivered, crc, UnRle(b, used - 1))
    ensures delivered == UnRle(b, 0) && !Corrupt(b, 0)
  {
    assert UnRle(b, used - 1) == [];
  }

  lemma DeliveredPrefix<R>(sum: Checksum<R>, b: seq<Byte>, used: nat, delivered: seq<Byte>, crc: R, left: seq<Byte>)
    requires used > 0 && Account(sum, b, used, delivered, crc, left)
    ensures delivered <= UnRle(b, 0)
  {
    hide UnRle, Corrupt;
  }

  /** As much of s as fits into the space offered so far. */
  function Prefix(s: seq<Byte>, offered: nat): seq<Byte> {
    if offered < |s| then s[..offered] else s
  }

  /** One call that either fills the space it was offered or delivers all there
      is, after calls that did. */
  lemma PrefixMore(s: seq<Byte>, before: seq<Byte>, offered: nat, after: seq<Byte>, avail: nat)
    requires before == Prefix(s, offered) && before <= after <= s && |after| <= |before| + avail
    requires |after| < |before| + avail ==> after == s
    ensures after == Prefix(s, offered + avail)
  {
  }

  lemma RunLengthPositive(b: seq<Byte>, p: nat)
    requires p < |b|
    ensures RunLength(b, p) > 0
  {
  }

  lemma RestNone(b: seq<Byte>, ch: Byte, used: nat)
    requires used > 0
    ensures Rest(b, ch, 0, used) == UnRle(b, used - 1)
  {
    assert Repeat(ch, 0) == [];
  }
}
