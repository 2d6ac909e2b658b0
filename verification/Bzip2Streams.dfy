/** The compressor with bzip2's own checksums, driven by any calls. */
module Bzip2Streams {
  import opened Sequences
  import opened Words
  import Rotations
  import opened BitStream
  import opened BzCrc
  import opened Encoders
  import opened StreamReader

  /** One call of BZ2_bzCompress: the input and output space set up before it. */
  datatype Call = Call(nextIn: seq<Rotations.Byte>, space: nat, action: Action)

  /** A stream from BZ2_bzCompressInit on, whatever calls follow: once one of them
      has reported the end, what was delivered reads back as what was taken in,
      and later calls change nothing. */
  method Drive(blockSize100k: nat, workFactor: nat, calls: seq<Call>) returns (e: Encoder<Word>, codes: seq<Code>)
    requires 1 <= blockSize100k <= 9 && workFactor <= 250
    ensures e.Valid() && |codes| == |calls|
    ensures StreamEnd in codes ==> e.mode == Idle && ReadStream(BzSumming(), Octets(e.delivered)) == Some(e.consumed)
    ensures forall i, j :: 0 <= i < j < |codes| && codes[i] == StreamEnd ==> codes[j] == SequenceError
  {
    hide Encoder.Valid, ReadStream, Encoder.Taken, Encoder.Given, Encoder.Idled;
    e := new Encoder(BzSumming(), blockSize100k, workFactor);
    codes := [];
    for i := 0 to |calls|
      invariant e.Valid() && fresh(e) && fresh(e.rl) && fresh(e.rl.block) && fresh(e.writer) && e.fmt == BzSumming()
        && |codes| == i
      invariant StreamEnd in codes <==> e.mode == Idle
      invariant forall k, j :: 0 <= k < j < i && codes[k] == StreamEnd ==> codes[j] == SequenceError
    {
      var code := e.Compress(calls[i].nextIn, calls[i].space, calls[i].action);
      codes := codes + [code];
    }
    if e.mode == Idle {
      CompressDecompress(e);
    }
  }
}
