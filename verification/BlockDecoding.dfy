/** From a decoded last column to the caller's bytes, both ways the decoder can
    go: its vector is built, then drained into whatever space is offered. */
module BlockDecoding {
  import opened Sequences
  import opened Checksums
  import opened Rotations
  import opened Radix
  import opened Bwt
  import opened BwtVectors
  import opened Rle
  import opened Delivery
  import opened UnRleFast
  import opened UnRleSmall
  import opened BlockBody
  import opened BlockMeaning

  /** unzftab, as it stands once the column is complete. */
  method CountColumn(l: seq<Byte>) returns (unzftab: array<int>)
    ensures fresh(unzftab) && unzftab.Length == 256 && forall c :: 0 <= c < 256 ==> unzftab[c] == Count(l, c, |l|)
  {
    unzftab := new int[256](c => 0);
    for i := 0 to |l|
      invariant forall c :: 0 <= c < 256 ==> unzftab[c] == Count(l, c, i)
    {
      unzftab[l[i]] := unzftab[l[i]] + 1;
    }
  }

  /** cftab: where the bucket of every byte starts. */
  method BucketStarts(l: seq<Byte>) returns (cftab: array<int>)
    ensures fresh(cftab) && Starts(cftab[..], l)
  {
    var unzftab := CountColumn(l);
    ghost var counts := unzftab[..];
    cftab := new int[257];
    cftab[0] := 0;
    for i := 1 to 257
      invariant cftab[0] == 0 && unzftab[..] == counts && forall c :: 1 <= c < i ==> cftab[c] == counts[c - 1]
    {
      cftab[i] := unzftab[i - 1];
    }
    SmallerEnds(l, |l|);
    for i := 1 to 257
      invariant forall c :: 0 <= c < i ==> cftab[c] == Smaller(l, c, |l|)
      invariant forall c :: i <= c < 257 ==> cftab[c] == Count(l, c - 1, |l|)
    {
      SmallerNext(l, i - 1, |l|);
      cftab[i] := cftab[i] + cftab[i - 1];
    }
  }

  lemma StartsAdvanced(cftab: seq<int>, l: seq<Byte>)
    requires Starts(cftab, l)
    ensures Advanced(cftab, l, 0)
  {
  }

  function Total(offers: seq<nat>): nat {
    if offers == [] then 0 else Total(offers[..|offers| - 1]) + offers[|offers| - 1]
  }

  lemma TotalMore(offers: seq<nat>, i: nat)
    requires i < |offers|
    ensures Total(offers[..i + 1]) == Total(offers[..i]) + offers[i]
  {
    assert offers[..i + 1][..i] == offers[..i];
  }

  /** A body the compressor wrote for these runs. */
  ghost predicate Codes(c: Coded, runs: seq<Pair>, order: seq<int>) {
    Runs(runs) && Means(c, WrittenAll(runs), order) && |WrittenAll(runs)| <= 900000
  }

  lemma Sourced(c: Coded, runs: seq<Pair>, order: seq<int>, l: seq<Byte>, next: seq<int>)
    requires Codes(c, runs, order) && LastOf(c) == Some(l) && IsNext(l, next)
    ensures Runs(runs) && Source(WrittenAll(runs), order, next, c.origPtr).Sound()
      && l == LastColumn(WrittenAll(runs), order) && 0 < |l| <= 900000
    ensures !Corrupt(WrittenAll(runs), 0) && UnRle(WrittenAll(runs), 0) == Expand(runs)
  {
    hide LastOf, UnRle, Corrupt;
    LastIs(c, WrittenAll(runs), order);
    RoundTrip(runs);
  }

  /** The whole way with the fast decoder: from a body written for some runs, the
      caller gets the beginning of their bytes that fits the space offered so
      far, and no error. */
  method DecodeFast<R>(sum: Checksum<R>, l: seq<Byte>, origPtr: nat, offers: seq<nat>, ghost c: Coded,
      ghost runs: seq<Pair>, ghost order: seq<int>)
    returns (out: FastDecoder<R>, corrupt: bool)
    requires Codes(c, runs, order) && LastOf(c) == Some(l) && origPtr == c.origPtr
    ensures !corrupt && out.Valid() && out.delivered == Prefix(Expand(runs), Total(offers))
    ensures out.crc == sum.Over(out.delivered)
  {
    hide Codes, LastOf, WrittenAll, Expand, UnRle, Corrupt, Prefix, IsNext, FastVector, Starts, Advanced, LastColumn;
    var tt := new int[|l|](i requires 0 <= i < |l| => l[i]);
    var cftab := BucketStarts(l);
    StartsAdvanced(cftab[..], l);
    ghost var next := BuildFast(tt, cftab, l);
    Sourced(c, runs, order, l, next);
    out := new FastDecoder(sum, tt, origPtr, Source(WrittenAll(runs), order, next, origPtr));
    corrupt := false;
    for i := 0 to |offers|
      invariant !corrupt && out.Valid() && out.offered == Total(offers[..i]) && fresh(out) && out.sum == sum
        && out.src.b == WrittenAll(runs)
    {
      TotalMore(offers, i);
      corrupt := out.Drain(offers[i]);
    }
    assert offers[..|offers|] == offers;
  }

  /** The whole way with the small decoder. */
  method DecodeSmall<R>(sum: Checksum<R>, l: seq<Byte>, origPtr: nat, offers: seq<nat>, ghost c: Coded,
      ghost runs: seq<Pair>, ghost order: seq<int>)
    returns (out: SmallDecoder<R>, corrupt: bool)
    requires Codes(c, runs, order) && LastOf(c) == Some(l) && origPtr == c.origPtr
    ensures !corrupt && out.Valid() && out.delivered == Prefix(Expand(runs), Total(offers))
    ensures out.crc == sum.Over(out.delivered)
  {
    hide Codes, LastOf, WrittenAll, Expand, UnRle, Corrupt, Prefix, IsNext, SmallVector, Starts, LastColumn;
    ghost var next := NextOf(l);
    Sourced(c, runs, order, l, next);
    var ll16, ll4 := new int[|l|](i requires 0 <= i < |l| => l[i]), new int[(1 + |l|) / 2](i => 0);
    var cftab := BucketStarts(l);
    var cftabCopy := new int[257];
    BuildSmall(ll16, ll4, cftab, cftabCopy, origPtr, l, next);
    out := new SmallDecoder(sum, ll16, ll4, cftab, origPtr, Source(WrittenAll(runs), order, next, origPtr));
    corrupt := false;
    for i := 0 to |offers|
      invariant !corrupt && out.Valid() && out.offered == Total(offers[..i]) && fresh(out) && out.sum == sum
        && out.src.b == WrittenAll(runs)
    {
      TotalMore(offers, i);
      corrupt := out.Drain(offers[i]);
    }
    assert offers[..|offers|] == offers;
  }
}
