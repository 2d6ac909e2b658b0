/** Move-to-front and zero-run coding, done in place: the 16-bit MTF values are
    written over the 32-bit sorted order they are computed from. */
module MtfValues {
  import opened Permutations
  import opened Sizes
  import opened Rotations
  import opened Bwt
  import opened WordBytes
  import opened MtfCoding

  /** The values are in the halves of the words, and counted. */
  ghost predicate Stored(words: seq<int>, freq: seq<int>, syms: seq<nat>, eob: nat) {
    && |syms| <= 2 * |words| && eob < |freq| == BZ_MAX_ALPHA_SIZE
    && (forall k :: 0 <= k < |syms| ==> syms[k] <= eob && GetHalf(words, k) == syms[k])
    && (forall s: nat :: s <= eob ==> freq[s] == Frequency(syms, s))
  }

  lemma StoredMore(words: seq<int>, freq: seq<int>, syms: seq<nat>, eob: nat, sym: nat)
    requires Stored(words, freq, syms, eob) && sym <= eob && |syms| < 2 * |words|
    ensures Stored(PutHalf(words, |syms|, sym), freq[sym := freq[sym] + 1], syms + [sym], eob)
  {
    var more := syms + [sym];
    var words', freq' := PutHalf(words, |syms|, sym), freq[sym := freq[sym] + 1];
    hide Frequency, GetHalf, PutHalf;
    forall k | 0 <= k < |more| ensures more[k] <= eob && GetHalf(words', k) == more[k] {
      PutGetHalf(words, |syms|, sym, k);
    }
    forall s: nat | s <= eob ensures freq'[s] == Frequency(more, s) {
      FrequencyMore(syms, sym, s);
    }
  }

  lemma {:induction false} NoneCounted(words: seq<int>, freq: seq<int>, eob: nat)
    requires eob < |freq| == BZ_MAX_ALPHA_SIZE && forall s :: 0 <= s <= eob ==> freq[s] == 0
    ensures Stored(words, freq, [], eob)
  {
  }

  class Generator {
    const arr1: array<int>
    const mtfFreq: array<int>
    const yy: array<int>
    const eob: nat
    var wr: nat
    ghost var syms: seq<nat>

    ghost predicate Apart() {
      arr1 != mtfFreq && arr1 != yy && mtfFreq != yy && yy.Length == 256 && 2 <= eob <= 257
    }

    ghost predicate Kept()
      reads this, arr1, mtfFreq
    {
      Apart() && wr == |syms| && Stored(arr1[..], mtfFreq[..], syms, eob)
    }

    /** The order is still there from word i on. */
    ghost predicate Unread(order: seq<int>, i: nat)
      reads arr1
    {
      |order| <= arr1.Length && forall k :: i <= k < |order| ==> arr1[k] == order[k]
    }

    ghost function List(): seq<int>
      requires Apart()
      reads yy
    {
      yy[..eob - 1]
    }

    constructor (words: array<int>, freq: array<int>, nInUse: nat)
      requires words != freq && freq.Length == BZ_MAX_ALPHA_SIZE && 1 <= nInUse <= 256
      modifies freq
      ensures Kept() && syms == [] && arr1 == words && mtfFreq == freq && eob == nInUse + 1 && fresh(yy)
      ensures List() == Start(nInUse).list
    {
      arr1, mtfFreq, eob := words, freq, nInUse + 1;
      wr, syms := 0, [];
      var list := new int[256];
      for i := 0 to nInUse
        invariant forall k :: 0 <= k < i ==> list[k] == k
      {
        list[i] := i;
      }
      for i := 0 to nInUse + 2
        invariant forall k :: 0 <= k < i ==> freq[k] == 0
        invariant forall k :: 0 <= k < nInUse ==> list[k] == k
      {
        freq[i] := 0;
      }
      yy := list;
      new;
      NoneCounted(arr1[..], mtfFreq[..], eob);
    }

    /** mtfv[wr] = sym; wr++; mtfFreq[sym]++ */
    method Emit(sym: nat)
      requires Kept() && wr < 2 * arr1.Length && sym <= eob
      modifies this`wr, this`syms, arr1, mtfFreq
      ensures Kept() && syms == old(syms) + [sym]
      ensures forall k :: old(wr) / 2 < k < arr1.Length ==> arr1[k] == old(arr1[k])
    {
      StoredMore(arr1[..], mtfFreq[..], syms, eob, sym);
      ghost var words, freq := arr1[..], mtfFreq[..];
      hide GetHalf, Frequency, Stored;
      arr1[wr / 2] := PutHalf(arr1[..], wr, sym)[wr / 2];
      assert arr1[..] == PutHalf(words, wr, sym);
      FreqLength(words, freq, syms, eob);
      mtfFreq[sym] := mtfFreq[sym] + 1;
      assert mtfFreq[..] == freq[sym := freq[sym] + 1];
      wr := wr + 1;
      syms := syms + [sym];
    }

    /** Writes the pending run of i's predecessors in bijective base two. */
    method FlushRun(pend: nat, i: nat, ghost ranks: seq<int>, ghost order: seq<int>)
      requires Kept() && NoEnd(syms, eob) && pend > 0 && InStep(syms, eob, List(), ranks, i, pend) && i <= arr1.Length
        && i < WEIGHT_LIMIT && Unread(order, i)
      modifies this`wr, this`syms, arr1, mtfFreq
      ensures Kept() && NoEnd(syms, eob) && Settled(syms, eob, List(), ranks, i) && Unread(order, i)
      ensures old(syms) <= syms && forall k :: |old(syms)| <= k < |syms| ==> syms[k] < 2
      ensures RunOf(syms[|old(syms)|..]) == pend
    {
      hide Stored, InStep, InRun, Settled, Decode, RunOf;
      RunStarts(syms, eob, List(), ranks, i, pend);
      var z := pend - 1;
      while true
        invariant Kept() && NoEnd(syms, eob) && 0 <= z && InRun(syms, eob, List(), ranks, i - pend, i, z)
          && Unread(order, i)
        invariant old(syms) <= syms && forall k :: |old(syms)| <= k < |syms| ==> syms[k] < 2
        decreases z
      {
        RunRoom(syms, eob, List(), ranks, i - pend, i, z);
        RunDigit(syms, eob, List(), ranks, i - pend, i, z);
        if z % 2 == 1 {
          Emit(RUNB);
        } else {
          Emit(RUNA);
        }
        if z < 2 {
          break;
        }
        z := (z - 2) / 2;
      }
      RunSettles(syms, eob, List(), ranks, i - pend, i);
      RunWritten(old(syms), syms, eob, List(), ranks, i - pend, i);
    }

    /** Finds ll in the list, moving everything before it up by one. */
    method MoveToFront(ll: int) returns (j: nat)
      requires Apart() && IsPerm(List()) && 0 <= ll < eob - 1 && yy[0] != ll
      modifies yy
      ensures 0 < j < eob - 1 && old(List())[j] == ll && List() == ToFront(old(List()), j)
    {
      hide IsPerm, ToFront;
      ghost var list := List();
      PermOnto(list, ll);
      ghost var at :| 0 <= at < |list| && list[at] == ll;
      var tmp := yy[1];
      yy[1] := yy[0];
      j := 1;
      while ll != tmp
        invariant 1 <= j <= at && tmp == list[j] && yy[0] == list[0]
        invariant forall k :: 0 < k <= j ==> yy[k] == list[k - 1]
        invariant forall k :: j < k < |list| ==> yy[k] == list[k]
        decreases at - j
      {
        j := j + 1;
        var tmp2 := tmp;
        tmp := yy[j];
        yy[j] := tmp2;
      }
      yy[0] := tmp;
      ShiftedIs(list, List(), j);
    }

    /** The body of the loop over the sorted order. */
    method OneByte(ll: int, i: nat, pend: nat, ghost ranks: seq<int>, ghost order: seq<int>) returns (pend': nat)
      requires Kept() && NoEnd(syms, eob) && InStep(syms, eob, List(), ranks, i, pend) && IsPerm(List())
      requires i < |ranks| <= arr1.Length && |ranks| < WEIGHT_LIMIT && ranks[i] == ll && 0 <= ll < eob - 1
        && Unread(order, i)
      modifies this`wr, this`syms, arr1, mtfFreq, yy
      ensures Kept() && NoEnd(syms, eob) && InStep(syms, eob, List(), ranks, i + 1, pend') && IsPerm(List())
        && Unread(order, i + 1)
    {
      hide Stored, InStep, Settled, Decode, IsPerm, ToFront;
      if yy[0] == ll {
        StepWaits(syms, eob, List(), ranks, i, pend);
        return pend + 1;
      }
      if pend > 0 {
        FlushRun(pend, i, ranks, order);
      } else {
        StepSettles(syms, eob, List(), ranks, i);
      }
      SettledRoom(syms, eob, List(), ranks, i);
      ghost var list := List();
      var j := MoveToFront(ll);
      StepMoves(syms, eob, list, ranks, i, j);
      ToFrontPerm(list, j);
      Emit(j + 1);
      pend' := 0;
    }

    /** generateMTFValues: the values decode to the last column of the sorted
        rotations, and no part of the order is overwritten before it is read. */
    method Generate(block: seq<Byte>, unseqToSeq: seq<int>, ghost order: seq<int>)
      requires Kept() && syms == [] && List() == Start(eob - 1).list
      requires block != [] && |block| == |order| <= arr1.Length && |block| < WEIGHT_LIMIT && IsPerm(order)
        && Unread(order, 0)
      requires Numbered(block, unseqToSeq, eob - 1)
      modifies this`wr, this`syms, arr1, mtfFreq, yy
      ensures Kept() && Encodes(syms, eob, Ranks(block, order, unseqToSeq)) && wr <= |block| + 1
    {
      hide Stored, InStep, Settled, Decode, Start, Encodes;
      ghost var ranks := Ranks(block, order, unseqToSeq);
      Begins(eob, ranks);
      StartPerm(eob - 1);
      var pend, n := 0, |block|;
      for i := 0 to n
        invariant Kept() && NoEnd(syms, eob) && InStep(syms, eob, List(), ranks, i, pend) && IsPerm(List())
          && Unread(order, i)
      {
        var j := arr1[i] - 1;
        if j < 0 {
          j := j + n;
        }
        assert j == Prev(n, order[i]) && LastColumn(block, order)[i] == block[j];
        pend := OneByte(unseqToSeq[block[j]], i, pend, ranks, order);
      }
      if pend > 0 {
        FlushRun(pend, n, ranks, []);
      } else {
        StepSettles(syms, eob, List(), ranks, n);
      }
      SettledRoom(syms, eob, List(), ranks, n);
      Ends(syms, eob, List(), ranks);
      Emit(eob);
    }
  }

  /** The values end with the end marker, which occurs nowhere else, and
      decode to the ranks. */
  ghost predicate Encodes(syms: seq<nat>, eob: nat, ranks: seq<int>)
    requires eob > 0
  {
    && syms != [] && syms[|syms| - 1] == eob && NoEnd(syms[..|syms| - 1], eob)
    && var d := Decode(Start(eob - 1), syms, eob); d.ok && d.out == ranks && d.run == 0
  }

  lemma Begins(eob: nat, ranks: seq<int>)
    requires eob >= 2
    ensures InStep([], eob, Start(eob - 1).list, ranks, 0, 0)
  {
  }

  lemma Ends(syms: seq<nat>, eob: nat, list: seq<int>, ranks: seq<int>)
    requires Settled(syms, eob, list, ranks, |ranks|) && NoEnd(syms, eob) && |list| == eob - 1
    ensures Encodes(syms + [eob], eob, ranks)
  {
    StepEnds(syms, eob, list, ranks);
    assert (syms + [eob])[..|syms|] == syms;
  }

  lemma StartPerm(n: nat)
    ensures IsPerm(Start(n).list)
  {
  }

  lemma SettledRoom(syms: seq<nat>, eob: nat, list: seq<int>, ranks: seq<int>, i: nat)
    requires Settled(syms, eob, list, ranks, i)
    ensures |syms| <= i
  {
  }

  ghost predicate NoEnd(syms: seq<nat>, eob: nat) {
    forall k :: 0 <= k < |syms| ==> syms[k] < eob
  }

  lemma FreqLength(words: seq<int>, freq: seq<int>, syms: seq<nat>, eob: nat)
    requires Stored(words, freq, syms, eob)
    ensures eob < |freq|
  {
  }

  lemma RunRoom(syms: seq<nat>, eob: nat, list: seq<int>, ranks: seq<int>, from: nat, to: nat, z: int)
    requires InRun(syms, eob, list, ranks, from, to, z)
    ensures |syms| + z + 1 <= to
  {
  }

  /** The numbers of the bytes of the last column. */
  ghost function Ranks(block: seq<Byte>, order: seq<int>, unseqToSeq: seq<int>): (r: seq<int>)
    requires |order| == |block| && IsPerm(order) && |unseqToSeq| == 256
    ensures |r| == |block|
  {
    seq(|block|, k requires 0 <= k < |block| => unseqToSeq[LastColumn(block, order)[k]])
  }

  /** Every byte in the block has a number. */
  ghost predicate Numbered(block: seq<Byte>, unseqToSeq: seq<int>, nInUse: nat) {
    |unseqToSeq| == 256 && forall k :: 0 <= k < |block| ==> 0 <= unseqToSeq[block[k]] < nInUse
  }
}
