/** The output-side decoder that walks 20-bit links and finds each byte by
    bisection in the table of bucket starts. */
module UnRleSmall {
  import opened Checksums
  import opened Permutations
  import opened Rotations
  import opened Radix
  import opened Bwt
  import opened BwtVectors
  import opened Rle
  import opened Delivery

  /** Bucket starts: how many bytes of l are below c. */
  ghost predicate Starts(cftab: seq<int>, l: seq<Byte>) {
    |cftab| == 257 && forall c :: 0 <= c <= 256 ==> cftab[c] == Smaller(l, c, |l|)
  }

  /** BZ2_indexIntoF: the byte in place indx of the sorted column, by bisection. */
  method IndexIntoF(indx: int, cftab: array<int>, ghost l: seq<Byte>) returns (nb: Byte)
    requires Starts(cftab[..], l) && 0 <= indx < |l|
    ensures Smaller(l, nb, |l|) <= indx < UpTo(l, nb, |l|)
  {
    SmallerEnds(l, |l|);
    var lo, hi := 0, 256;
    while true
      invariant 0 <= lo < hi - 1 < 256 && cftab[lo] <= indx < cftab[hi]
      decreases hi - lo
    {
      var mid := (lo + hi) / 2;
      if indx >= cftab[mid] {
        lo := mid;
      } else {
        hi := mid;
      }
      if hi - lo == 1 {
        return lo;
      }
    }
  }

  /** The byte in place j of the sorted column is the one next points at. */
  lemma SortedColumn(l: seq<Byte>, next: seq<int>, j: nat, c: Byte)
    requires IsNext(l, next) && j < |l| && Smaller(l, c, |l|) <= j < UpTo(l, c, |l|)
    ensures 0 <= next[j] < |l| && l[next[j]] == c
  {
    NextStable(l, next, j);
    var d := l[next[j]];
    StableRange(l, next[j]);
    if d < c {
      UpToMonotone(l, d, c, |l|);
    } else if c < d {
      UpToMonotone(l, c, d, |l|);
    }
  }

  /** The links lead along the walk from o. */
  ghost predicate SmallVector(ll16: seq<int>, ll4: seq<int>, next: seq<int>, o: int)
    requires IsPerm(next) && 0 <= o < |next|
  {
    && |ll16| == |next| && LinkStore(ll16, ll4)
    && forall k: nat :: GetLL(ll16, ll4, Row(next, o, k)) == Row(next, o, k + 1)
  }

  /** ll16 comes in holding the last column, cftab the bucket starts. */
  method BuildSmall(ll16: array<int>, ll4: array<int>, cftab: array<int>, cftabCopy: array<int>, o: nat,
      ghost l: seq<Byte>, ghost next: seq<int>)
    requires ll16 != ll4 && ll16 != cftabCopy && ll4 != cftabCopy && cftab != ll16 && cftab != ll4 && cftab != cftabCopy
    requires cftabCopy.Length == 257 && Starts(cftab[..], l) && IsNext(l, next) && o < |l|
    requires ll16.Length == |l| <= 0x10_0000 && LinkStore(ll16[..], ll4[..])
    requires forall i :: 0 <= i < |l| ==> ll16[i] == l[i]
    modifies ll16, ll4, cftabCopy
    ensures SmallVector(ll16[..], ll4[..], next, o)
  {
    for i := 0 to 257
      invariant forall k :: 0 <= k < i ==> cftabCopy[k] == cftab[k]
      invariant ll16[..] == old(ll16[..]) && ll4[..] == old(ll4[..]) && cftab[..] == old(cftab[..])
    {
      cftabCopy[i] := cftab[i];
    }
    assert cftabCopy[..] == cftab[..];
    NoneCounted(l);
    BuildInverse(ll16, ll4, cftabCopy, l);
    ghost var t := View(ll16[..], ll4[..]);
    InverseOf(l, next, t);
    ReverseCycle(ll16, ll4, o, t, next);
  }

  lemma NoneCounted(l: seq<Byte>)
    ensures forall c :: 0 <= c < 256 ==> Count(l, c, 0) == 0
  {
  }

  lemma InverseOf(l: seq<Byte>, next: seq<int>, t: seq<int>)
    requires IsNext(l, next) && |t| == |l| && forall i :: 0 <= i < |l| ==> t[i] == Stable(l, i)
    ensures IsPerm(t) && forall i :: 0 <= i < |t| ==> next[t[i]] == i
  {
    forall i, j | 0 <= i < j < |t| ensures t[i] != t[j] {
      StableInjective(l, i, j);
    }
  }

  class SmallDecoder<R> {
    const sum: Checksum<R>
    const ll16: array<int>
    const ll4: array<int>
    const cftab: array<int>
    ghost const src: Source
    const saveNblock: nat
    var tPos: int
    var k0: Byte
    var used: nat
    var outCh: Byte
    var outLen: nat
    var crc: R
    var availOut: nat
    ghost var delivered: seq<Byte>
    ghost var offered: nat

    /** The place in the vector is where `used` fetches have led. */
    ghost predicate Linked()
      reads this`tPos, this`used, ll16, ll4, cftab
    {
      && src.Sound() && saveNblock == |src.b|
      && SmallVector(ll16[..], ll4[..], src.next, src.o) && Starts(cftab[..], LastColumn(src.b, src.order))
      && tPos == Row(src.next, src.o, used)
    }

    ghost predicate Fetched()
      reads this`tPos, this`used, this`k0, ll16, ll4, cftab
    {
      Linked() && 0 < used <= |src.b| + 2 && (used <= |src.b| ==> k0 == src.b[used - 1])
    }

    ghost predicate Valid()
      reads this, ll16, ll4, cftab
    {
      && Fetched() && Account(sum, src.b, used, delivered, crc, Rest(src.b, outCh, outLen, used))
      && delivered == Prefix(UnRle(src.b, 0), offered)
    }

    /** BZ_GET_SMALL: the byte by bisection, then on to the next place. */
    method Get() returns (c: Byte)
      requires Linked()
      modifies this`tPos, this`used
      ensures Linked() && used == old(used) + 1 && c == At(src.b, old(used))
    {
      ghost var l := LastColumn(src.b, src.order);
      WalkReadsBlock(src.b, src.order, src.next, src.o, used);
      c := IndexIntoF(tPos, cftab, l);
      SortedColumn(l, src.next, tPos, c);
      tPos := GetLL(ll16[..], ll4[..], tPos);
      used := used + 1;
    }

    constructor (checksum: Checksum<R>, links16: array<int>, links4: array<int>, starts: array<int>, origPtr: nat,
        ghost source: Source)
      requires source.Sound() && origPtr == source.o && SmallVector(links16[..], links4[..], source.next, source.o)
      requires Starts(starts[..], LastColumn(source.b, source.order))
      ensures Valid() && offered == 0 && src == source && sum == checksum
    {
      sum, ll16, ll4, cftab, src, saveNblock := checksum, links16, links4, starts, source, links16.Length;
      tPos := origPtr;
      used, outLen, outCh, k0, crc, availOut := 0, 0, 0, 0, checksum.initial, 0;
      delivered, offered := [], 0;
      new;
      hide Account, SmallVector, Rest, UnRle, Corrupt, LastColumn;
      k0 := Get();
      FirstFetch(sum, src.b, outCh, k0);
    }

    /** Deliver the current run, byte by byte, while there is space. */
    method FinishRun() returns (full: bool)
      requires 0 < used && Account(sum, src.b, used, delivered, crc, Rest(src.b, outCh, outLen, used))
      modifies this`outLen, this`crc, this`delivered, this`availOut
      ensures Account(sum, src.b, used, delivered, crc, Rest(src.b, outCh, outLen, used))
      ensures if full then availOut == 0 else availOut > 0 && outLen == 0
      ensures old(delivered) <= delivered && |delivered| + availOut == |old(delivered)| + old(availOut)
    {
      hide *;
      while true
        invariant Account(sum, src.b, used, delivered, crc, Rest(src.b, outCh, outLen, used))
        invariant old(delivered) <= delivered && |delivered| + availOut == |old(delivered)| + old(availOut)
        decreases availOut
      {
        if availOut == 0 {
          return true;
        }
        if outLen == 0 {
          return false;
        }
        RestByte(src.b, outCh, outLen, used);
        AccountEmit(sum, src.b, used, delivered, crc, outCh, Rest(src.b, outCh, outLen - 1, used));
        crc := sum.update(crc, outCh);
        delivered := delivered + [outCh];
        outLen := outLen - 1;
        availOut := availOut - 1;
      }
    }

    /** Read the next run. */
    method NextRun()
      requires Fetched() && used <= saveNblock
      modifies this`tPos, this`used, this`k0, this`outCh, this`outLen
      ensures Fetched() && used == RunEnd(src.b, old(used) - 1) + 1 && outCh == src.b[old(used) - 1]
      ensures outLen == RunLength(src.b, old(used) - 1)
    {
      hide Linked, RunLength, RunEnd, At;
      Bounds();
      ghost var b, p := src.b, used - 1;
      AtInside(b, p);
      outLen := 1;
      outCh := k0;
      var k1 := Get();
      if used == saveNblock + 1 {
        RunOfOne(b, p);
        return;
      }
      if k1 != k0 {
        RunOfOne(b, p);
        KeepFetched(k1);
        return;
      }
      SecondByte(p);
    }

    /** The run has at least two bytes. */
    method SecondByte(ghost p: nat)
      requires Linked() && used == p + 2 <= |src.b| && saveNblock == |src.b|
      requires k0 == src.b[p] && At(src.b, p + 1) == src.b[p]
      modifies this`tPos, this`used, this`k0, this`outLen
      ensures Fetched() && used == RunEnd(src.b, p) + 1 && outLen == RunLength(src.b, p)
    {
      ghost var b := src.b;
      hide Linked, RunLength, RunEnd, At;
      outLen := 2;
      var k1 := Get();
      if used == saveNblock + 1 {
        RunOfTwo(b, p);
        return;
      }
      if k1 != k0 {
        RunOfTwo(b, p);
        KeepFetched(k1);
        return;
      }
      ThirdByte(p);
    }

    /** The run has at least three bytes, and a count byte after the fourth. */
    method ThirdByte(ghost p: nat)
      requires Linked() && used == p + 3 <= |src.b| && saveNblock == |src.b|
      requires k0 == src.b[p] && At(src.b, p + 1) == src.b[p] && At(src.b, p + 2) == src.b[p]
      modifies this`tPos, this`used, this`k0, this`outLen
      ensures Fetched() && used == RunEnd(src.b, p) + 1 && outLen == RunLength(src.b, p)
    {
      ghost var b := src.b;
      hide Linked, RunLength, RunEnd, At;
      outLen := 3;
      var k1 := Get();
      if used == saveNblock + 1 {
        RunOfThree(b, p);
        return;
      }
      if k1 != k0 {
        RunOfThree(b, p);
        KeepFetched(k1);
        return;
      }
      LongRun(b, p);
      k1 := Get();
      outLen := (k1 as int) + 4;
      k1 := Get();
      KeepFetched(k1);
    }

    /** k0 := k1 */
    method KeepFetched(k1: Byte)
      requires Linked() && 1 < used <= |src.b| + 2 && k1 == At(src.b, used - 1)
      modifies this`k0
      ensures Fetched() && k0 == k1
    {
      hide Linked;
      if used <= |src.b| {
        AtInside(src.b, used - 1);
      }
      k0 := k1;
    }

    lemma Bounds()
      requires Fetched()
      ensures saveNblock == |src.b|
    {
    }

    /** unRLE_obuf_to_output_SMALL: delivers as much of what is left as fits. A
        well-formed block is never reported as corrupt. */
    method Drain(avail0: nat) returns (corrupt: bool)
      requires Valid()
      modifies this`tPos, this`used, this`k0, this`outCh, this`outLen, this`crc, this`availOut, this`delivered,
        this`offered
      ensures offered == old(offered) + avail0 && delivered == Prefix(UnRle(src.b, 0), offered)
      ensures corrupt ==> Corrupt(src.b, 0)
      ensures |UnRle(src.b, 0)| < |old(delivered)| + avail0 ==> corrupt == Corrupt(src.b, 0)
      ensures !corrupt ==> Valid()
    {
      hide Account, Linked, Rest, UnRle, Corrupt, Prefix, RunEnd, RunLength;
      Bounds();
      ghost var u := UnRle(src.b, 0);
      availOut := avail0;
      while true
        invariant offered == old(offered)
        invariant Fetched() && Account(sum, src.b, used, delivered, crc, Rest(src.b, outCh, outLen, used))
        invariant old(delivered) <= delivered && |delivered| + availOut == |old(delivered)| + avail0
        decreases saveNblock + 2 - used
      {
        var full := FinishRun();
        if full {
          DeliveredPrefix(sum, src.b, used, delivered, crc, Rest(src.b, outCh, outLen, used));
          offered := offered + avail0;
          PrefixMore(u, old(delivered), old(offered), delivered, avail0);
          return false;
        }
        RestNone(src.b, outCh, used);
        if used == saveNblock + 1 {
          Finished(sum, src.b, used, delivered, crc);
          offered := offered + avail0;
          PrefixMore(u, old(delivered), old(offered), delivered, avail0);
          return false;
        }
        if used > saveNblock + 1 {
          Broken(sum, src.b, used, delivered, crc);
          offered := offered + avail0;
          PrefixMore(u, old(delivered), old(offered), delivered, avail0);
          return true;
        }
        AccountRun(sum, src.b, used, delivered, crc);
        NextRun();
      }
    }
  }
}
