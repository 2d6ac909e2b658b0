/** Bytes and half-words laid over an array of 32-bit words, as the block over
    eclass and the MTF values over the sorted order are in the compressor. */
module WordBytes {
  import opened Rotations

  /** Byte j of a word, counted from the low end. */
  function ByteOf(w: int, j: nat): Byte
    decreases j
  {
    if j == 0 then w % 256 else ByteOf(w / 256, j - 1)
  }

  function WithByte(w: int, j: nat, c: Byte): int
    decreases j
  {
    if j == 0 then w / 256 * 256 + c else WithByte(w / 256, j - 1, c) * 256 + w % 256
  }

  lemma {:induction false} WithByteOf(w: int, j: nat, c: Byte, k: nat)
    ensures ByteOf(WithByte(w, j, c), k) == if j == k then c else ByteOf(w, k)
    decreases j
  {
    if j == 0 {
      assert WithByte(w, j, c) / 256 == w / 256;
    } else {
      assert WithByte(w, j, c) / 256 == WithByte(w / 256, j - 1, c);
      if k != 0 {
        WithByteOf(w / 256, j - 1, c, k - 1);
      }
    }
  }

  /** ((UChar*)words)[i] */
  function GetByte(words: seq<int>, i: nat): Byte
    requires i < 4 * |words|
  {
    ByteOf(words[i / 4], i % 4)
  }

  /** ((UChar*)words)[i] = c */
  function PutByte(words: seq<int>, i: nat, c: Byte): (r: seq<int>)
    requires i < 4 * |words|
    ensures |r| == |words|
  {
    words[i / 4 := WithByte(words[i / 4], i % 4, c)]
  }

  lemma PutGet(words: seq<int>, i: nat, c: Byte, k: nat)
    requires i < 4 * |words| && k < 4 * |words|
    ensures GetByte(PutByte(words, i, c), k) == if k == i then c else GetByte(words, k)
  {
    WithByteOf(words[i / 4], i % 4, c, k % 4);
  }

  /** The block sits in the first bytes of the words. */
  ghost predicate Holds(words: seq<int>, b: seq<Byte>) {
    |b| <= 4 * |words| && forall i :: 0 <= i < |b| ==> GetByte(words, i) == b[i]
  }

  /** ((UInt16*)words)[i] */
  function GetHalf(words: seq<int>, i: nat): int
    requires i < 2 * |words|
  {
    if i % 2 == 0 then words[i / 2] % 0x1_0000 else words[i / 2] / 0x1_0000
  }

  /** ((UInt16*)words)[i] = v */
  function PutHalf(words: seq<int>, i: nat, v: int): (r: seq<int>)
    requires i < 2 * |words|
    ensures |r| == |words|
  {
    var w := words[i / 2];
    words[i / 2 := if i % 2 == 0 then w / 0x1_0000 * 0x1_0000 + v else w % 0x1_0000 + 0x1_0000 * v]
  }

  lemma PutGetHalf(words: seq<int>, i: nat, v: int, k: nat)
    requires i < 2 * |words| && k < 2 * |words| && 0 <= v < 0x1_0000
    ensures GetHalf(PutHalf(words, i, v), k) == if k == i then v else GetHalf(words, k)
  {
  }
}
