/** What a sequence of MTF values means: the decoder's side of move-to-front
    and of the zero runs written in bijective base two. */
module MtfCoding {
  import opened Arithmetic
  import opened Permutations

  const RUNA := 0
  const RUNB := 1

  /** The list with entry j moved to the front. */
  function ToFront(list: seq<int>, j: nat): (r: seq<int>)
    requires j < |list|
    ensures |r| == |list|
  {
    [list[j]] + list[..j] + list[j + 1..]
  }

  /** Moving to the front keeps all numbers in the list. */
  lemma ToFrontPerm(list: seq<int>, j: nat)
    requires IsPerm(list) && j < |list|
    ensures IsPerm(ToFront(list, j))
  {
  }

  lemma ShiftedIs(list: seq<int>, now: seq<int>, j: nat)
    requires |now| == |list| && j < |list| && now[0] == list[j]
    requires forall k :: 0 < k <= j ==> now[k] == list[k - 1]
    requires forall k :: j < k < |list| ==> now[k] == list[k]
    ensures now == ToFront(list, j)
  {
  }

  /** A run-length weight the decoder no longer accepts. */
  const WEIGHT_LIMIT := 2 * 1024 * 1024

  /** The decoder between two symbols. */
  datatype Decoder = Decoder(list: seq<int>, out: seq<int>, run: nat, weight: nat, ok: bool) {
    /** The run being read ends here. */
    function EndRun(): Decoder {
      if run == 0 then this.(weight := 1)
      else if list == [] then this.(ok := false)
      else this.(out := out + seq(run, i => list[0]), run := 0, weight := 1)
    }

    function Digit(d: nat): Decoder {
      this.(run := run + d * weight, weight := 2 * weight, ok := ok && weight < WEIGHT_LIMIT)
    }

    function Next(sym: nat, eob: nat): Decoder {
      if sym == RUNA then Digit(1)
      else if sym == RUNB then Digit(2)
      else if sym == eob then EndRun()
      else
        var d := EndRun();
        if sym - 1 < |list| then d.(list := ToFront(list, sym - 1), out := d.out + [list[sym - 1]]) else d.(ok := false)
    }
  }

  function Decode(d: Decoder, syms: seq<nat>, eob: nat): Decoder {
    if syms == [] then d else Decode(d, syms[..|syms| - 1], eob).Next(syms[|syms| - 1], eob)
  }

  lemma DecodeMore(d: Decoder, syms: seq<nat>, eob: nat, sym: nat)
    ensures Decode(d, syms + [sym], eob) == Decode(d, syms, eob).Next(sym, eob)
  {
    assert (syms + [sym])[..|syms|] == syms;
  }

  function Start(n: nat): Decoder {
    Decoder(seq(n, i => i), [], 0, 1, true)
  }

  // ----- what digits stand for ---------------------------------------------

  /** Digits 0 and 1, the first one counting least: the sum of (digit + 1) * 2^j. */
  function RunOf(digits: seq<nat>): nat {
    if digits == [] then 0
    else RunOf(digits[..|digits| - 1]) + (digits[|digits| - 1] + 1) * Pow2(|digits| - 1)
  }

  lemma {:induction false} DecodeConcat(d: Decoder, a: seq<nat>, b: seq<nat>, eob: nat)
    ensures Decode(d, a + b, eob) == Decode(Decode(d, a, eob), b, eob)
  {
    if b == [] {
      assert a + b == a;
    } else {
      var front, last := b[..|b| - 1], b[|b| - 1];
      assert b == front + [last] && a + b == (a + front) + [last];
      DecodeConcat(d, a, front, eob);
      DecodeMore(d, a + front, eob, last);
    }
  }

  lemma Weights(k: nat)
    ensures Pow2(k) < WEIGHT_LIMIT <==> k <= 20
  {
    assert Pow2(10) == 1024;
    Pow2Add(10, 10);
    assert Pow2(21) == 2 * Pow2(20);
    if k <= 20 {
      Pow2Monotone(k, 20);
    } else {
      Pow2Monotone(21, k);
    }
  }

  /** The symbols 0 and 1 are read as the digits of a run, up to 21 of them. */
  lemma {:induction false} DigitsRead(d: Decoder, digits: seq<nat>, eob: nat)
    requires d.run == 0 && d.weight == 1 && forall j :: 0 <= j < |digits| ==> digits[j] < 2
    ensures var r := Decode(d, digits, eob);
      r.run == RunOf(digits) && r.weight == Pow2(|digits|) && r.ok == (d.ok && |digits| <= 21)
  {
    if digits != [] {
      DigitsRead(d, digits[..|digits| - 1], eob);
      Weights(|digits| - 1);
    }
  }

  /** How often a symbol occurs. */
  function Frequency(syms: seq<nat>, sym: nat): nat {
    if syms == [] then 0 else Frequency(syms[..|syms| - 1], sym) + if syms[|syms| - 1] == sym then 1 else 0
  }

  lemma FrequencyMore(syms: seq<nat>, s: nat, sym: nat)
    ensures Frequency(syms + [s], sym) == Frequency(syms, sym) + if s == sym then 1 else 0
  {
    assert (syms + [s])[..|syms|] == syms;
  }

  // ----- what the encoder keeps --------------------------------------------

  /** After i bytes: the symbols so far decode to all but the last `pend` of
      them, and those are all at the front of the list. */
  ghost predicate InStep(syms: seq<nat>, eob: nat, list: seq<int>, ranks: seq<int>, i: nat, pend: nat) {
    && pend <= i <= |ranks| && |syms| + pend <= i && |list| + 1 == eob && list != []
    && Decode(Start(|list|), syms, eob) == Decoder(list, ranks[..i - pend], 0, 1, true)
    && forall k :: i - pend <= k < i ==> ranks[k] == list[0]
  }

  /** While a run is written out: digits so far, and what they still lack. */
  ghost predicate InRun(syms: seq<nat>, eob: nat, list: seq<int>, ranks: seq<int>, from: nat, to: nat, z: int) {
    && from < to <= |ranks| && -1 <= z && |syms| + z + 1 <= to && |list| + 1 == eob && list != []
    && var d := Decode(Start(|list|), syms, eob);
    && d.list == list && d.out == ranks[..from] && d.ok && d.weight >= 1
    && d.run + d.weight * (z + 1) == to - from
    && forall k :: from <= k < to ==> ranks[k] == list[0]
  }

  lemma RunStarts(syms: seq<nat>, eob: nat, list: seq<int>, ranks: seq<int>, i: nat, pend: nat)
    requires InStep(syms, eob, list, ranks, i, pend) && pend > 0
    ensures InRun(syms, eob, list, ranks, i - pend, i, pend - 1)
  {
  }

  /** One digit: z & 1 chooses it, (z - 2) / 2 goes on. */
  lemma RunDigit(syms: seq<nat>, eob: nat, list: seq<int>, ranks: seq<int>, from: nat, to: nat, z: nat)
    requires InRun(syms, eob, list, ranks, from, to, z) && to < WEIGHT_LIMIT
    ensures var more := syms + [if z % 2 == 1 then RUNB else RUNA];
      InRun(more, eob, list, ranks, from, to, if z < 2 then -1 else (z - 2) / 2)
  {
    hide Decode;
    var d := Decode(Start(|list|), syms, eob);
    var digit, rest := if z % 2 == 1 then 2 else 1, if z < 2 then 0 else (z - 2) / 2 + 1;
    DecodeMore(Start(|list|), syms, eob, if z % 2 == 1 then RUNB else RUNA);
    DigitSplit(z);
    Spread(d.weight, z + 1, digit, rest);
    AtLeast(d.weight, z + 1);
  }

  lemma DigitSplit(z: nat)
    ensures z + 1 == (if z % 2 == 1 then 2 else 1) + 2 * (if z < 2 then 0 else (z - 2) / 2 + 1)
  {
  }

  lemma Spread(w: nat, n: nat, digit: nat, rest: nat)
    requires n == digit + 2 * rest
    ensures w * n == digit * w + (2 * w) * rest
  {
  }

  lemma AtLeast(w: nat, n: nat)
    requires n >= 1
    ensures w <= w * n
  {
  }

  /** The symbols so far stand for the first i ranks, a last run included. */
  ghost predicate Settled(syms: seq<nat>, eob: nat, list: seq<int>, ranks: seq<int>, i: nat) {
    && i <= |ranks| && |syms| <= i && |list| + 1 == eob && list != []
    && var d := Decode(Start(|list|), syms, eob);
    d.EndRun() == Decoder(list, ranks[..i], 0, 1, true) && d.list == list
  }

  lemma StepSettles(syms: seq<nat>, eob: nat, list: seq<int>, ranks: seq<int>, i: nat)
    requires InStep(syms, eob, list, ranks, i, 0)
    ensures Settled(syms, eob, list, ranks, i)
  {
  }

  /** The digits of a run written out add up to its length. */
  lemma RunWritten(was: seq<nat>, syms: seq<nat>, eob: nat, list: seq<int>, ranks: seq<int>, from: nat, i: nat)
    requires from <= i && InStep(was, eob, list, ranks, i, i - from) && InRun(syms, eob, list, ranks, from, i, -1)
    requires was <= syms && forall j :: |was| <= j < |syms| ==> syms[j] < 2
    ensures RunOf(syms[|was|..]) == i - from
  {
    hide RunOf, Decode;
    assert syms == was + syms[|was|..];
    DecodeConcat(Start(|list|), was, syms[|was|..], eob);
    DigitsRead(Decode(Start(|list|), was, eob), syms[|was|..], eob);
  }

  lemma RunSettles(syms: seq<nat>, eob: nat, list: seq<int>, ranks: seq<int>, from: nat, i: nat)
    requires InRun(syms, eob, list, ranks, from, i, -1)
    ensures Settled(syms, eob, list, ranks, i)
  {
    assert ranks[..i] == ranks[..from] + seq(i - from, k => list[0]);
  }

  /** A byte further down the list is written as its place plus one. */
  lemma StepMoves(syms: seq<nat>, eob: nat, list: seq<int>, ranks: seq<int>, i: nat, j: nat)
    requires Settled(syms, eob, list, ranks, i) && i < |ranks| && 0 < j < |list| && list[j] == ranks[i]
    ensures InStep(syms + [j + 1], eob, ToFront(list, j), ranks, i + 1, 0)
  {
    DecodeMore(Start(|list|), syms, eob, j + 1);
    assert ranks[..i + 1] == ranks[..i] + [ranks[i]];
  }

  /** A byte at the front makes the pending run longer. */
  lemma StepWaits(syms: seq<nat>, eob: nat, list: seq<int>, ranks: seq<int>, i: nat, pend: nat)
    requires InStep(syms, eob, list, ranks, i, pend) && i < |ranks| && list[0] == ranks[i]
    ensures InStep(syms, eob, list, ranks, i + 1, pend + 1)
  {
  }

  /** The end marker completes the decoding. */
  lemma StepEnds(syms: seq<nat>, eob: nat, list: seq<int>, ranks: seq<int>)
    requires Settled(syms, eob, list, ranks, |ranks|)
    ensures var d := Decode(Start(|list|), syms + [eob], eob); d.ok && d.out == ranks && d.run == 0
  {
    DecodeMore(Start(|list|), syms, eob, eob);
    assert ranks[..|ranks|] == ranks;
  }
}
