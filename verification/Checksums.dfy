/** A checksum kept by updating a register byte by byte, whatever the register. */
module Checksums {
  import opened Iteration
  import opened Rotations

  datatype Checksum<!R> = Checksum(initial: R, update: (R, Byte) -> R) {
    /** The register after a whole sequence of bytes. */
    function Over(bytes: seq<Byte>): R {
      Fold(update, initial, bytes)
    }

    lemma More(bytes: seq<Byte>, c: Byte)
      ensures Over(bytes + [c]) == update(Over(bytes), c)
    {
      FoldAppend(update, initial, bytes, c);
    }
  }
}
