/** The output-side decoder that walks 32-bit entries. It stops whenever the
    caller's output space is used up and goes on from there at the next call. */
module UnRleFast {
  import opened Checksums
  import opened Rotations
  import opened Bwt
  import opened BwtVectors
  import opened Rle
  import opened Delivery

  lemma FirstPlace(vector: seq<int>, origPtr: nat, source: Source)
    requires source.Sound() && origPtr == source.o
      && FastVector(vector, LastColumn(source.b, source.order), source.next)
    ensures origPtr < |vector| == |source.b| && vector[origPtr] / 256 == Row(source.next, source.o, 1)
  {
    Unpack(LastColumn(source.b, source.order)[origPtr], source.next[origPtr]);
    assert Row(source.next, source.o, 0) == source.o;
  }

  class FastDecoder<R> {
    const sum: Checksum<R>
    const tt: array<int>
    ghost const src: Source
    const saveNblock: nat
    var tPos: int
    var k0: Byte
    var used: nat
    var outCh: Byte
    var outLen: nat
    var crc: R
    ghost var delivered: seq<Byte>
    ghost var offered: nat

    /** The place in the vector is where `used` fetches have led. */
    ghost predicate Linked()
      reads this`tPos, this`used, tt
    {
      && src.Sound() && saveNblock == |src.b|
      && FastVector(tt[..], LastColumn(src.b, src.order), src.next)
      && tPos == Row(src.next, src.o, used + 1)
    }

    ghost predicate Fetched()
      reads this`tPos, this`used, this`k0, tt
    {
      Linked() && 0 < used <= |src.b| + 2 && (used <= |src.b| ==> k0 == src.b[used - 1])
    }

    ghost predicate Valid()
      reads this, tt
    {
      && Fetched() && Account(sum, src.b, used, delivered, crc, Rest(src.b, outCh, outLen, used))
      && delivered == Prefix(UnRle(src.b, 0), offered)
    }

    /** BZ_GET_FAST_C: the low byte is the answer, the rest the next place. */
    method Get() returns (c: Byte)
      requires Linked()
      modifies this`tPos, this`used
      ensures Linked() && used == old(used) + 1 && c == At(src.b, old(used))
    {
      ghost var l := LastColumn(src.b, src.order);
      WalkReadsBlock(src.b, src.order, src.next, src.o, used);
      Unpack(l[tPos], src.next[tPos]);
      var t := tt[tPos];
      c := t % 256;
      tPos := t / 256;
      used := used + 1;
    }

    constructor (checksum: Checksum<R>, vector: array<int>, origPtr: nat, ghost source: Source)
      requires source.Sound() && origPtr == source.o
        && FastVector(vector[..], LastColumn(source.b, source.order), source.next)
      ensures Valid() && offered == 0 && src == source && tt == vector && sum == checksum
    {
      sum, tt, src, saveNblock := checksum, vector, source, vector.Length;
      tPos := vector[origPtr] / 256;
      used, outLen, outCh, k0, crc := 0, 0, 0, 0, checksum.initial;
      delivered, offered := [], 0;
      new;
      hide Account, FastVector, Source.Sound, Rest, UnRle, Corrupt, Row, LastColumn;
      FirstPlace(vector[..], origPtr, source);
      k0 := Get();
      FirstFetch(sum, src.b, outCh, k0);
    }

    /** Deliver one byte of the current run. */
    method Emit(ghost left: seq<Byte>)
      requires used > 0 && Account(sum, src.b, used, delivered, crc, [outCh] + left)
      modifies this`crc, this`delivered
      ensures Account(sum, src.b, used, delivered, crc, left) && delivered == old(delivered) + [outCh]
    {
      AccountEmit(sum, src.b, used, delivered, crc, outCh, left);
      hide Account;
      crc := sum.update(crc, outCh);
      delivered := delivered + [outCh];
    }

    /** Read the next run. A run of one byte is not recorded but reported. */
    method NextRun() returns (single: bool)
      requires Fetched() && used <= saveNblock
      modifies this`tPos, this`used, this`k0, this`outCh, this`outLen
      ensures Fetched() && used == RunEnd(src.b, old(used) - 1) + 1 && outCh == src.b[old(used) - 1]
      ensures RunLength(src.b, old(used) - 1) == if single then 1 else outLen
    {
      ghost var b, p := src.b, used - 1;
      AtInside(b, p);
      assert saveNblock == |b|;
      hide Linked, RunLength, RunEnd, At;
      outCh := k0;
      var k1 := Get();
      if k1 != k0 {
        RunOfOne(b, p);
        KeepFetched(k1);
        return true;
      }
      if used == saveNblock + 1 {
        RunOfOne(b, p);
        return true;
      }
      SecondByte(p);
      single := false;
    }

    /** The run has at least two bytes. */
    method SecondByte(ghost p: nat)
      requires Linked() && used == p + 2 <= |src.b| && saveNblock == |src.b|
      requires k0 == src.b[p] && At(src.b, p + 1) == src.b[p]
      modifies this`tPos, this`used, this`k0, this`outLen
      ensures Fetched() && used == RunEnd(src.b, p) + 1 && outLen == RunLength(src.b, p)
    {
      ghost var b := src.b;
      hide Linked, RunLength, RunEnd, At;
      outLen := 2;
      var k1 := Get();
      if used == saveNblock + 1 {
        RunOfTwo(b, p);
        return;
      }
      if k1 != k0 {
        RunOfTwo(b, p);
        KeepFetched(k1);
        return;
      }
      ThirdByte(p);
    }

    /** The run has at least three bytes, and a count byte after the fourth. */
    method ThirdByte(ghost p: nat)
      requires Linked() && used == p + 3 <= |src.b| && saveNblock == |src.b|
      requires k0 == src.b[p] && At(src.b, p + 1) == src.b[p] && At(src.b, p + 2) == src.b[p]
      modifies this`tPos, this`used, this`k0, this`outLen
      ensures Fetched() && used == RunEnd(src.b, p) + 1 && outLen == RunLength(src.b, p)
    {
      ghost var b := src.b;
      hide Linked, RunLength, RunEnd, At;
      outLen := 3;
      var k1 := Get();
      if used == saveNblock + 1 {
        RunOfThree(b, p);
        return;
      }
      if k1 != k0 {
        RunOfThree(b, p);
        KeepFetched(k1);
        return;
      }
      LongRun(b, p);
      k1 := Get();
      outLen := (k1 as int) + 4;
      k1 := Get();
      KeepFetched(k1);
    }

    /** k0 := k1 */
    method KeepFetched(k1: Byte)
      requires Linked() && 1 < used <= |src.b| + 2 && k1 == At(src.b, used - 1)
      modifies this`k0
      ensures Fetched() && k0 == k1
    {
      if used <= |src.b| {
        AtInside(src.b, used - 1);
      }
      k0 := k1;
    }

    /** What is left, where `single` stands for one byte not yet recorded. */
    ghost function Pending(single: bool): seq<Byte>
      requires used > 0
      reads this`used, this`outCh, this`outLen
    {
      if single then [outCh] + UnRle(src.b, used - 1) else Rest(src.b, outCh, outLen, used)
    }

    /** Between runs: read the next one. */
    method StartRun() returns (single: bool)
      requires Fetched() && used <= saveNblock && Account(sum, src.b, used, delivered, crc, UnRle(src.b, used - 1))
      modifies this`tPos, this`used, this`k0, this`outCh, this`outLen
      ensures Fetched() && used > old(used) && Account(sum, src.b, used, delivered, crc, Pending(single))
      ensures single || outLen > 0
    {
      ghost var b, p := src.b, used - 1;
      assert saveNblock == |b|;
      RunLengthPositive(b, p);
      AccountRun(sum, b, used, delivered, crc);
      hide Linked, Account, UnRle, Corrupt, RunLength, RunEnd;
      single := NextRun();
      RestByte(b, outCh, 1, used);
      RestNone(b, outCh, used);
    }

    /** Deliver the current run down to its last byte. */
    method AllButOne(avail0: nat) returns (avail: nat)
      requires 0 < used && outLen > 0 && Account(sum, src.b, used, delivered, crc, Rest(src.b, outCh, outLen, used))
      modifies this`outLen, this`crc, this`delivered
      ensures 0 < outLen && (avail == 0 || outLen == 1) && avail <= avail0
      ensures Account(sum, src.b, used, delivered, crc, Rest(src.b, outCh, outLen, used))
      ensures old(delivered) <= delivered && |delivered| + avail == |old(delivered)| + avail0
    {
      hide Account, Rest;
      avail := avail0;
      while avail > 0 && outLen != 1
        invariant 0 < outLen && avail <= avail0
          && Account(sum, src.b, used, delivered, crc, Rest(src.b, outCh, outLen, used))
        invariant old(delivered) <= delivered && |delivered| + avail == |old(delivered)| + avail0
      {
        RestByte(src.b, outCh, outLen, used);
        Emit(Rest(src.b, outCh, outLen - 1, used));
        outLen := outLen - 1;
        avail := avail - 1;
      }
    }

    /** Deliver the current run, unless the output space runs out first. */
    method FinishRun(avail0: nat, single: bool) returns (avail: nat, full: bool)
      requires 0 < used && (single || outLen > 0) && Account(sum, src.b, used, delivered, crc, Pending(single))
      modifies this`outLen, this`crc, this`delivered
      ensures full ==> avail == 0 && Account(sum, src.b, used, delivered, crc, Rest(src.b, outCh, outLen, used))
      ensures !full ==> Account(sum, src.b, used, delivered, crc, UnRle(src.b, used - 1))
      ensures old(delivered) <= delivered && |delivered| + avail == |old(delivered)| + avail0
    {
      hide Account, Rest, UnRle;
      avail := avail0;
      if !single {
        avail := AllButOne(avail0);
        if avail == 0 {
          return avail, true;
        }
      }
      RestByte(src.b, outCh, 1, used);
      RestNone(src.b, outCh, used);
      if avail == 0 {
        outLen := 1;
        return avail, true;
      }
      Emit(UnRle(src.b, used - 1));
      avail := avail - 1;
      full := false;
    }

    lemma Bounds()
      requires Fetched()
      ensures saveNblock == |src.b|
    {
    }

    /** unRLE_obuf_to_output_FAST: delivers as much of what is left as fits. A
        well-formed block is never reported as corrupt. */
    method Drain(avail0: nat) returns (corrupt: bool)
      requires Valid()
      modifies this`tPos, this`used, this`k0, this`outCh, this`outLen, this`crc, this`delivered, this`offered
      ensures offered == old(offered) + avail0 && delivered == Prefix(UnRle(src.b, 0), offered)
      ensures corrupt ==> Corrupt(src.b, 0)
      ensures |UnRle(src.b, 0)| < |old(delivered)| + avail0 ==> corrupt == Corrupt(src.b, 0)
      ensures !corrupt ==> Valid()
    {
      hide Account, Linked, Rest, UnRle, Corrupt, Prefix;
      Bounds();
      ghost var u := UnRle(src.b, 0);
      var avail, single := avail0, false;
      while true
        invariant offered == old(offered)
        invariant Fetched() && Account(sum, src.b, used, delivered, crc, Pending(single))
        invariant old(delivered) <= delivered && |delivered| + avail == |old(delivered)| + avail0
        decreases saveNblock + 2 - used
      {
        if single || outLen > 0 {
          var full;
          avail, full := FinishRun(avail, single);
          if full {
            DeliveredPrefix(sum, src.b, used, delivered, crc, Rest(src.b, outCh, outLen, used));
            offered := offered + avail0;
            PrefixMore(u, old(delivered), old(offered), delivered, avail0);
            return false;
          }
        } else {
          RestNone(src.b, outCh, used);
        }
        if used > saveNblock + 1 {
          Broken(sum, src.b, used, delivered, crc);
          offered := offered + avail0;
          PrefixMore(u, old(delivered), old(offered), delivered, avail0);
          return true;
        }
        if used == saveNblock + 1 {
          Finished(sum, src.b, used, delivered, crc);
          offered := offered + avail0;
          PrefixMore(u, old(delivered), old(offered), delivered, avail0);
          outLen := 0;
          RestNone(src.b, outCh, used);
          return false;
        }
        single := StartRun();
      }
    }
  }
}
