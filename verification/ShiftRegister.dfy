/** A linear shift register, abstractly: a one-bit step that distributes over
    addition, bytes that can be added at the bottom or placed higher up, and
    what follows for feeding bytes one, four, eight and sixteen at a time. The
    lookup tables are given by the recurrence that generates them. */
module ShiftRegister {
  import opened Iteration

  /** `place(b, k)` is byte b put k bits up, `high(w)` is w moved down eight
      bits, `low(w)` its lowest byte, `byteAt(w, j)` its byte j, and `assemble`
      makes a word of four bytes, the first one lowest. */
  datatype Register<!W(!new), !B(!new)> = Register(
    step: W -> W, add: (W, W) -> W, widen: B -> W, place: (B, nat) -> W, high: W -> W, low: W -> B, byteAt: (W, nat) -> B,
    assemble: (B, B, B, B) -> W)
  {
    ghost predicate Laws() {
      LinearLaw() && WaitingLaw() && SplitLaw() && BytesLaw() && LoadLaw() && ChainLaw()
    }

    /** A chain of additions may be cut before its last four terms, and nested
        sums may be flattened into a chain. */
    ghost predicate ChainLaw() {
      && (forall acc, a, b, c, d :: add(add(add(add(acc, a), b), c), d) == add(acc, add(add(add(a, b), c), d)))
      && (forall a, b, c, d :: add(a, add(b, add(c, d))) == add(add(add(a, b), c), d))
    }

    /** A step distributes over addition. */
    ghost predicate LinearLaw() {
      Linear(step, add)
    }

    /** A byte placed k bits up is at the bottom k steps later. */
    ghost predicate WaitingLaw() {
      forall b, k | k <= 24 :: Steps(k, place(b, k)) == widen(b)
    }

    /** Eight steps move the high part down and work the low byte off. */
    ghost predicate SplitLaw() {
      forall w :: Steps(8, w) == add(high(w), Steps(8, widen(low(w))))
    }

    /** A word is the sum of its bytes in their places. */
    ghost predicate BytesLaw() {
      forall w :: w == add(add(add(place(byteAt(w, 3), 24), place(byteAt(w, 2), 16)), place(byteAt(w, 1), 8)), place(byteAt(w, 0), 0))
    }

    /** Adding an assembled word adds its bytes in their places. */
    ghost predicate LoadLaw() {
      forall w, b0, b1, b2, b3 ::
        add(assemble(b0, b1, b2, b3), w) == add(add(add(add(w, widen(b0)), place(b1, 8)), place(b2, 16)), place(b3, 24))
    }

    ghost predicate AssocLaw() {
      forall a, b, c :: add(add(a, b), c) == add(a, add(b, c))
    }

    /** Adding a byte changes only the lowest byte, into the table index. */
    ghost predicate IndexLaw(index: (W, B) -> B) {
      forall w, b :: high(add(w, widen(b))) == high(w) && low(add(w, widen(b))) == index(w, b)
    }

    /** n one-bit steps. */
    function Steps(n: nat, w: W): W {
      Iter(step, n, w)
    }

    /** One message byte: added at the bottom, then eight steps. */
    function Feed(w: W, b: B): W {
      Steps(8, add(w, widen(b)))
    }

    /** The register after all of `data`. */
    function Run(w: W, data: seq<B>): W {
      Fold(Feed, w, data)
    }

    /** Entry i of slice k of the lookup table. */
    function Lookup(k: nat, i: B): W {
      if k == 0 then Steps(8, widen(i))
      else
        var before := Lookup(k - 1, i);
        add(high(before), Lookup(0, low(before)))
    }

    /** The four lookups for one loaded word. */
    function FourLookups(k: nat, w: W): W {
      add(add(add(Lookup(k, byteAt(w, 3)), Lookup(k + 1, byteAt(w, 2))), Lookup(k + 2, byteAt(w, 1))), Lookup(k + 3, byteAt(w, 0)))
    }

    lemma StepsAdd(m: nat, n: nat, w: W)
      ensures Steps(m + n, w) == Steps(n, Steps(m, w))
    {
      IterAdd(step, m, n, w);
    }

    lemma StepsLinear(n: nat, a: W, b: W)
      requires Laws()
      ensures Steps(n, add(a, b)) == add(Steps(n, a), Steps(n, b))
    {
      IterLinear(step, add, n, a, b);
    }

    lemma StepsLinearFour(n: nat, a: W, b: W, c: W, d: W)
      requires Laws()
      ensures Steps(n, add(add(add(a, b), c), d)) == add(add(add(Steps(n, a), Steps(n, b)), Steps(n, c)), Steps(n, d))
    {
      StepsLinear(n, add(add(a, b), c), d);
      StepsLinear(n, add(a, b), c);
      StepsLinear(n, a, b);
    }

    /** Feeding after k steps is the same as having placed the byte k bits up. */
    lemma FeedLate(k: nat, w: W, b: B)
      requires Laws() && k <= 24
      ensures Feed(Steps(k, w), b) == Steps(k + 8, add(w, place(b, k)))
    {
      StepsLinear(k, w, place(b, k));
      StepsAdd(k, 8, add(w, place(b, k)));
    }

    lemma FourFeeds(w: W, b0: B, b1: B, b2: B, b3: B)
      requires Laws()
      ensures Run(w, [b0, b1, b2, b3]) ==
        Steps(32, add(add(add(add(w, widen(b0)), place(b1, 8)), place(b2, 16)), place(b3, 24)))
    {
      FoldFour(Feed, w, b0, b1, b2, b3);
      var x0 := add(w, widen(b0));
      var x1 := add(x0, place(b1, 8));
      FeedLate(8, x0, b1);
      FeedLate(16, x1, b2);
      FeedLate(24, add(x1, place(b2, 16)), b3);
    }

    /** Four message bytes amount to one addition and thirty-two steps. */
    lemma FeedFour(w: W, b0: B, b1: B, b2: B, b3: B)
      requires Laws()
      ensures Run(w, [b0, b1, b2, b3]) == Steps(32, add(assemble(b0, b1, b2, b3), w))
    {
      FourFeeds(w, b0, b1, b2, b3);
    }

    /** Slice k of the table holds the effect of k zero bytes behind the index. */
    lemma {:induction false} LookupIs(k: nat, i: B)
      requires Laws()
      ensures Lookup(k, i) == Steps(8 * k + 8, widen(i))
    {
      if k != 0 {
        LookupIs(k - 1, i);
        StepsAdd(8 * k, 8, widen(i));
      }
    }

    /** A byte j bytes up in a word contributes the entry of slice k + 3 - j. */
    lemma ByteContribution(k: nat, j: nat, b: B)
      requires Laws() && j < 4
      ensures Steps(8 * k + 32, place(b, 8 * j)) == Lookup(k + 3 - j, b)
    {
      StepsAdd(8 * j, 8 * (k + 3 - j) + 8, place(b, 8 * j));
      LookupIs(k + 3 - j, b);
    }

    lemma BytesSum(w: W)
      requires Laws()
      ensures w == add(add(add(place(byteAt(w, 3), 24), place(byteAt(w, 2), 16)), place(byteAt(w, 1), 8)),
        place(byteAt(w, 0), 0))
    {
    }

    /** Four lookups carry a whole word through 8k + 32 steps. */
    lemma FourLookupsAre(k: nat, w: W)
      requires Laws()
      ensures FourLookups(k, w) == Steps(8 * k + 32, w)
    {
      hide Laws, Lookup, Steps;
      var b0, b1, b2, b3, n := byteAt(w, 0), byteAt(w, 1), byteAt(w, 2), byteAt(w, 3), 8 * k + 32;
      ByteContribution(k, 0, b0);
      ByteContribution(k, 1, b1);
      ByteContribution(k, 2, b2);
      ByteContribution(k, 3, b3);
      StepsLinearFour(n, place(b3, 24), place(b2, 16), place(b1, 8), place(b0, 0));
      BytesSum(w);
    }

    /** The word loaded from four consecutive message bytes. */
    function Load(data: seq<B>, i: nat): W
      requires i + 4 <= |data|
    {
      assemble(data[i], data[i + 1], data[i + 2], data[i + 3])
    }

    lemma LoadFour(w: W, data: seq<B>, i: nat)
      requires Laws() && i + 4 <= |data|
      ensures Run(w, data[i..i + 4]) == Steps(32, add(Load(data, i), w))
    {
      assert data[i..i + 4] == [data[i], data[i + 1], data[i + 2], data[i + 3]];
      FeedFour(w, data[i], data[i + 1], data[i + 2], data[i + 3]);
    }

    /** Two consecutive words. */
    lemma LoadEight(w: W, data: seq<B>, i: nat)
      requires Laws() && i + 8 <= |data|
      ensures Run(w, data[i..i + 8]) == add(Steps(32, Load(data, i + 4)), Steps(64, add(Load(data, i), w)))
    {
      hide Laws;
      var one := add(Load(data, i), w);
      LoadFour(w, data, i);
      LoadFour(Steps(32, one), data, i + 4);
      assert data[i..i + 8] == data[i..i + 4] + data[i + 4..i + 8];
      FoldConcat(Feed, w, data[i..i + 4], data[i + 4..i + 8]);
      StepsLinear(32, Load(data, i + 4), Steps(32, one));
      StepsAdd(32, 32, one);
    }

    /** Four consecutive words. */
    lemma LoadSixteen(w: W, data: seq<B>, i: nat)
      requires Laws() && i + 16 <= |data|
      ensures Run(w, data[i..i + 16]) ==
              add(Steps(32, Load(data, i + 12)), add(Steps(64, Load(data, i + 8)),
                add(Steps(96, Load(data, i + 4)), Steps(128, add(Load(data, i), w)))))
    {
      hide Laws;
      var one, two, three := add(Load(data, i), w), Load(data, i + 4), Load(data, i + 8);
      var mid := add(Steps(32, two), Steps(64, one));
      LoadEight(w, data, i);
      LoadEight(mid, data, i + 8);
      assert data[i..i + 16] == data[i..i + 8] + data[i + 8..i + 16];
      FoldConcat(Feed, w, data[i..i + 8], data[i + 8..i + 16]);
      StepsLinear(64, three, mid);
      StepsLinear(64, Steps(32, two), Steps(64, one));
      StepsAdd(32, 64, two);
      StepsAdd(64, 64, one);
    }

    /** Starting from a sum: one part sees only zero bytes, the other the data. */
    lemma {:induction false} RunSplit(a: W, b: W, data: seq<B>)
      requires Laws()
      requires AssocLaw()
      ensures Run(add(a, b), data) == add(Steps(8 * |data|, a), Run(b, data))
      decreases |data|
    {
      if data != [] {
        StepsLinear(8, a, add(b, widen(data[0])));
        StepsAdd(8, 8 * |data[1..]|, a);
        RunSplit(Steps(8, a), Feed(b, data[0]), data[1..]);
      }
    }

    // ----- the slicing forms -----------------------------------------------

    /** Entry of the given slice for byte j of w. */
    function T(slice: nat, w: W, j: nat): W {
      Lookup(slice, byteAt(w, j))
    }

    function FourChain(one: W): W {
      add(add(add(T(0, one, 3), T(1, one, 2)), T(2, one, 1)), T(3, one, 0))
    }

    function EightChain(one: W, two: W): W {
      add(add(add(add(FourChain(two), T(4, one, 3)), T(5, one, 2)), T(6, one, 1)), T(7, one, 0))
    }

    function TwelveChain(one: W, two: W, three: W): W {
      add(add(add(add(EightChain(two, three), T(8, one, 3)), T(9, one, 2)), T(10, one, 1)), T(11, one, 0))
    }

    function SixteenChain(one: W, two: W, three: W, four: W): W {
      add(add(add(add(TwelveChain(two, three, four), T(12, one, 3)), T(13, one, 2)), T(14, one, 1)), T(15, one, 0))
    }

    lemma CutChain(acc: W, a: W, b: W, c: W, d: W)
      requires Laws()
      ensures add(add(add(add(acc, a), b), c), d) == add(acc, add(add(add(a, b), c), d))
    {
    }

    lemma FlattenSum(a: W, b: W, c: W, d: W)
      requires Laws()
      ensures add(a, add(b, add(c, d))) == add(add(add(a, b), c), d)
    {
    }

    lemma EightTerms(one: W, two: W)
      requires Laws()
      ensures EightChain(one, two) == add(Steps(32, two), Steps(64, one))
    {
      hide Laws;
      CutChain(FourChain(two), T(4, one, 3), T(5, one, 2), T(6, one, 1), T(7, one, 0));
      FourLookupsAre(0, two);
      FourLookupsAre(4, one);
    }

    lemma TwelveTerms(one: W, two: W, three: W)
      requires Laws()
      ensures TwelveChain(one, two, three) == add(add(Steps(32, three), Steps(64, two)), Steps(96, one))
    {
      hide Laws;
      CutChain(EightChain(two, three), T(8, one, 3), T(9, one, 2), T(10, one, 1), T(11, one, 0));
      EightTerms(two, three);
      FourLookupsAre(8, one);
    }

    lemma SixteenTerms(one: W, two: W, three: W, four: W)
      requires Laws()
      ensures SixteenChain(one, two, three, four) ==
        add(add(add(Steps(32, four), Steps(64, three)), Steps(96, two)), Steps(128, one))
    {
      hide Laws;
      CutChain(TwelveChain(two, three, four), T(12, one, 3), T(13, one, 2), T(14, one, 1), T(15, one, 0));
      TwelveTerms(two, three, four);
      FourLookupsAre(12, one);
    }

    lemma FourRound(w: W, data: seq<B>, i: nat)
      requires Laws() && i + 4 <= |data|
      ensures FourChain(add(Load(data, i), w)) == Run(w, data[i..i + 4])
    {
      hide Laws;
      LoadFour(w, data, i);
      FourLookupsAre(0, add(Load(data, i), w));
    }

    lemma EightRound(w: W, data: seq<B>, i: nat)
      requires Laws() && i + 8 <= |data|
      ensures EightChain(add(Load(data, i), w), Load(data, i + 4)) == Run(w, data[i..i + 8])
    {
      hide Laws;
      LoadEight(w, data, i);
      EightTerms(add(Load(data, i), w), Load(data, i + 4));
    }

    lemma SixteenRound(w: W, data: seq<B>, i: nat)
      requires Laws() && i + 16 <= |data|
      ensures SixteenChain(add(Load(data, i), w), Load(data, i + 4), Load(data, i + 8), Load(data, i + 12)) ==
        Run(w, data[i..i + 16])
    {
      hide Laws;
      LoadSixteen(w, data, i);
      SixteenTerms(add(Load(data, i), w), Load(data, i + 4), Load(data, i + 8), Load(data, i + 12));
      FlattenSum(Steps(32, Load(data, i + 12)), Steps(64, Load(data, i + 8)), Steps(96, Load(data, i + 4)),
        Steps(128, add(Load(data, i), w)));
    }

    lemma RunMore(w: W, data: seq<B>, i: nat, n: nat)
      requires i + n <= |data|
      ensures Run(w, data[..i + n]) == Run(Run(w, data[..i]), data[i..i + n])
    {
      assert data[..i + n] == data[..i] + data[i..i + n];
      FoldConcat(Feed, w, data[..i], data[i..i + n]);
    }

    lemma ByteRound(crc: W, b: B, index: (W, B) -> B)
      requires Laws() && IndexLaw(index)
      ensures Feed(crc, b) == add(high(crc), Lookup(0, index(crc, b)))
    {
      var x := add(crc, widen(b));
      assert Steps(8, x) == add(high(x), Steps(8, widen(low(x))));
    }

    /** The byte-wise tail every form ends with, and the whole of the byte form. */
    method ByByte(init: W, data: seq<B>, start: nat, crcIn: W, index: (W, B) -> B) returns (crc: W)
      requires Laws() && start <= |data| && crcIn == Run(init, data[..start])
      requires IndexLaw(index)
      ensures crc == Run(init, data)
    {
      hide Laws, IndexLaw, Lookup, Feed;
      crc := crcIn;
      var i := start;
      while i < |data|
        invariant start <= i <= |data|
        invariant crc == Run(init, data[..i])
      {
        assert data[..i + 1] == data[..i] + [data[i]];
        FoldAppend(Feed, init, data[..i], data[i]);
        ByteRound(crc, data[i], index);
        crc := add(high(crc), Lookup(0, index(crc, data[i])));
        i := i + 1;
      }
      assert data[..i] == data;
    }

    method ByFour(init: W, data: seq<B>) returns (crc: W, i: nat)
      requires Laws()
      ensures i <= |data| && |data| - i < 4 && crc == Run(init, data[..i])
    {
      hide Laws;
      crc := init;
      i := 0;
      while |data| - i >= 4
        invariant i <= |data| && crc == Run(init, data[..i])
      {
        FourRound(crc, data, i);
        RunMore(init, data, i, 4);
        crc := FourChain(add(Load(data, i), crc));
        i := i + 4;
      }
    }

    method ByEight(init: W, data: seq<B>) returns (crc: W, i: nat)
      requires Laws()
      ensures i <= |data| && |data| - i < 8 && crc == Run(init, data[..i])
    {
      hide Laws;
      crc := init;
      i := 0;
      while |data| - i >= 8
        invariant i <= |data| && crc == Run(init, data[..i])
      {
        EightRound(crc, data, i);
        RunMore(init, data, i, 8);
        crc := EightChain(add(Load(data, i), crc), Load(data, i + 4));
        i := i + 8;
      }
    }

    /** Eight bytes a round, four rounds per test of the length. */
    method ByFourTimesEight(init: W, data: seq<B>) returns (crc: W, i: nat)
      requires Laws()
      ensures i <= |data| && |data| - i < 32 && crc == Run(init, data[..i])
    {
      hide Laws;
      crc := init;
      i := 0;
      while |data| - i >= 32
        invariant i <= |data| && crc == Run(init, data[..i])
      {
        var start := i;
        for unrolling := 0 to 4
          invariant i == start + 8 * unrolling && crc == Run(init, data[..i])
        {
          EightRound(crc, data, i);
          RunMore(init, data, i, 8);
          crc := EightChain(add(Load(data, i), crc), Load(data, i + 4));
          i := i + 8;
        }
      }
    }

    /** Sixteen bytes a round, four rounds per test, stopping `ahead` early. */
    method BySixteen(init: W, data: seq<B>, ahead: nat) returns (crc: W, i: nat)
      requires Laws()
      ensures i <= |data| && |data| - i < 64 + ahead && crc == Run(init, data[..i])
    {
      hide Laws;
      crc := init;
      i := 0;
      while |data| - i >= 64 + ahead
        invariant i <= |data| && crc == Run(init, data[..i])
      {
        var start := i;
        for unrolling := 0 to 4
          invariant i == start + 16 * unrolling && crc == Run(init, data[..i])
        {
          SixteenRound(crc, data, i);
          RunMore(init, data, i, 16);
          crc := SixteenChain(add(Load(data, i), crc), Load(data, i + 4), Load(data, i + 8), Load(data, i + 12));
          i := i + 16;
        }
      }
    }
  }
}
