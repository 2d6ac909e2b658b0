/** The two output-side decoders give the caller the same bytes. */
module BothDecoders {
  import opened Rle
  import opened Delivery
  import opened UnRleFast
  import opened UnRleSmall

  /** On a block the compressor wrote, both decoders have delivered the same
      beginning of the runs' bytes, however the output space came in pieces,
      and hold the same checksum. */
  lemma SameOutput<R>(fast: FastDecoder<R>, small: SmallDecoder<R>, runs: seq<Pair>)
    requires fast.Valid() && small.Valid() && fast.offered == small.offered && fast.sum == small.sum
    requires Runs(runs) && fast.src.b == WrittenAll(runs) == small.src.b
    ensures fast.delivered == small.delivered == Prefix(Expand(runs), fast.offered)
    ensures fast.crc == small.crc == fast.sum.Over(fast.delivered) && !Corrupt(fast.src.b, 0)
  {
    hide FastDecoder.Fetched, SmallDecoder.Fetched, UnRle, Corrupt, Expand, WrittenAll;
    RoundTrip(runs);
  }
}
