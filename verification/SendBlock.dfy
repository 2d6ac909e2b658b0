/** sendMTFValues as a whole: whatever tables come out, the bits written are a
    body that reads back. */
module SendBlock {
  import opened Arithmetic
  import opened Sizes
  import opened BitStream
  import opened BitWriters
  import opened MtfCoding
  import opened SideInfo
  import opened Codes
  import opened UsedBytes
  import opened BlockBody
  import opened SendValues
  import opened SendBits
  import opened CodingTables
  import HuffmanLengths
  import HuffmanCheap

  const MAX_LEN := 17

  /** Lengths the compressor accepts, for which codes exist. */
  ghost predicate Usable(lens: seq<nat>, alphaSize: nat) {
    |lens| == alphaSize && (forall i :: 0 <= i < alphaSize ==> 1 <= lens[i] <= MAX_LEN) && Kraft(lens)
  }

  // ----- frequencies add up ------------------------------------------------

  function Frequencies(syms: seq<nat>, alphaSize: nat): (f: seq<nat>)
    ensures |f| == alphaSize && forall s :: 0 <= s < alphaSize ==> f[s] == Frequency(syms, s)
  {
    seq(alphaSize, s requires 0 <= s < alphaSize => Frequency(syms, s))
  }

  lemma {:induction false} SumOneMore(f: seq<nat>, g: seq<nat>, at: nat, to: nat)
    requires to <= |f| == |g| && at < |f| && g == f[at := f[at] + 1]
    ensures Sum(g, 0, to) == Sum(f, 0, to) + if at < to then 1 else 0
  {
    if to > 0 {
      SumOneMore(f, g, at, to - 1);
    }
  }

  lemma {:induction false} SumNothing(f: seq<nat>, to: nat)
    requires to <= |f| && forall i :: 0 <= i < |f| ==> f[i] == 0
    ensures Sum(f, 0, to) == 0
  {
    if to > 0 {
      SumNothing(f, to - 1);
    }
  }

  /** The frequencies of all symbols add up to the number of values. */
  lemma {:induction false} FrequenciesSum(syms: seq<nat>, alphaSize: nat)
    requires forall k :: 0 <= k < |syms| ==> syms[k] < alphaSize
    ensures Sum(Frequencies(syms, alphaSize), 0, alphaSize) == |syms|
  {
    if syms == [] {
      SumNothing(Frequencies(syms, alphaSize), alphaSize);
    } else {
      var front, last := syms[..|syms| - 1], syms[|syms| - 1];
      FrequenciesSum(front, alphaSize);
      var f, g := Frequencies(front, alphaSize), Frequencies(syms, alphaSize);
      assert g == f[last := f[last] + 1];
      SumOneMore(f, g, last, alphaSize);
    }
  }

  /** The uses of one table, symbol by symbol. */
  function UsesRow(sel: seq<nat>, syms: seq<nat>, k: nat, t: nat, alphaSize: nat): (r: seq<nat>)
    requires k <= |syms| && k <= BZ_G_SIZE * |sel|
    ensures |r| == alphaSize && forall v :: 0 <= v < alphaSize ==> r[v] == Uses(sel, syms, k, t, v)
  {
    seq(alphaSize, v requires 0 <= v < alphaSize => Uses(sel, syms, k, t, v))
  }

  /** A table is used at most once for every value. */
  lemma {:induction false} UsesSum(sel: seq<nat>, syms: seq<nat>, k: nat, t: nat, alphaSize: nat)
    requires k <= |syms| && k <= BZ_G_SIZE * |sel| && forall i :: 0 <= i < |syms| ==> syms[i] < alphaSize
    ensures Sum(UsesRow(sel, syms, k, t, alphaSize), 0, alphaSize) <= k
  {
    var g := UsesRow(sel, syms, k, t, alphaSize);
    if k == 0 {
      SumNothing(g, alphaSize);
    } else {
      UsesSum(sel, syms, k - 1, t, alphaSize);
      var f, v := UsesRow(sel, syms, k - 1, t, alphaSize), syms[k - 1];
      if sel[(k - 1) / BZ_G_SIZE] == t {
        assert g == f[v := f[v] + 1];
        SumOneMore(f, g, v, alphaSize);
      } else {
        assert g == f;
      }
    }
  }

  lemma {:induction false} SumAtLeastOne(freq: seq<nat>, i: nat)
    requires i <= |freq|
    ensures HuffmanLengths.Sum1(freq, i) <= Sum(freq, 0, i) + i
  {
    if i > 0 {
      SumAtLeastOne(freq, i - 1);
    }
  }

  /** So the frequencies are within what the code length algorithm handles. */
  lemma RowFits(rfreq: array2<nat>, row: seq<nat>, sel: seq<nat>, syms: seq<nat>, t: nat, nGroups: nat, alphaSize: nat)
    requires t < nGroups <= rfreq.Length0 && alphaSize <= rfreq.Length1 && alphaSize <= BZ_MAX_ALPHA_SIZE
      && |syms| <= BZ_G_SIZE * |sel| && |syms| <= BZ_G_SIZE * BZ_MAX_SELECTORS
    requires Counted(rfreq, sel, syms, |syms|, nGroups, alphaSize)
      && (forall i :: 0 <= i < |syms| ==> syms[i] < alphaSize)
    requires |row| == alphaSize && forall v :: 0 <= v < alphaSize ==> row[v] == rfreq[t, v]
    ensures HuffmanLengths.Sum1(row, alphaSize) <= HuffmanLengths.MAX_TOTAL
    ensures row == UsesRow(sel, syms, |syms|, t, alphaSize)
  {
    assert row == UsesRow(sel, syms, |syms|, t, alphaSize);
    UsesSum(sel, syms, |syms|, t, alphaSize);
    SumAtLeastOne(row, alphaSize);
  }

  // ----- the tables --------------------------------------------------------

  method Rows2<T>(a: array2<T>, n: nat, m: nat) returns (rows: seq<seq<T>>)
    requires n <= a.Length0 && m <= a.Length1
    ensures |rows| == n && forall t :: 0 <= t < n ==> |rows[t]| == m && forall v :: 0 <= v < m ==> rows[t][v] == a[t, v]
  {
    rows := [];
    for t := 0 to n
      invariant |rows| == t
        && forall u :: 0 <= u < t ==> |rows[u]| == m && forall v :: 0 <= v < m ==> rows[u][v] == a[u, v]
    {
      var row := [];
      for v := 0 to m
        invariant |row| == v && forall w :: 0 <= w < v ==> row[w] == a[t, w]
      {
        row := row + [a[t, v]];
      }
      rows := rows + [row];
    }
  }

  /** The first guess: the ranges divide the alphabet, and a table is cheap exactly
      for the symbols of its range. */
  ghost predicate FirstGuess(lens: seq<seq<nat>>, freq: seq<nat>) {
    && lens != []
    && exists starts: seq<nat> ::
        && |starts| == |lens| + 1 && starts[|lens|] == |freq|
        && Divides(freq, starts, |lens|) && RowsAre(lens, starts, |freq|)
  }

  ghost predicate RowsAre(lens: seq<seq<nat>>, starts: seq<nat>, alphaSize: nat)
    requires |starts| == |lens| + 1
  {
    forall t :: 0 <= t < |lens| ==> RowIs(lens[t], starts[|lens| - 1 - t], starts[|lens| - t], alphaSize)
  }

  ghost predicate RowIs(row: seq<nat>, gs: nat, to: nat, alphaSize: nat) {
    |row| == alphaSize && forall v :: 0 <= v < alphaSize ==> row[v] == if gs <= v < to then 0 else 15
  }

  /** The first guess as rows. */
  method FirstTables(freq: seq<nat>, nMTF: nat, nGroups: nat) returns (lens: seq<seq<nat>>)
    requires 2 <= nGroups <= BZ_N_GROUPS && 0 < |freq| <= BZ_MAX_ALPHA_SIZE && nMTF == Sum(freq, 0, |freq|)
      && freq[|freq| - 1] > 0
    ensures Sized(lens, nGroups, |freq|) && FirstGuess(lens, freq)
  {
    hide Divides;
    var len := new nat[BZ_N_GROUPS, BZ_MAX_ALPHA_SIZE];
    ghost var starts := InitialTables(len, freq, nMTF, nGroups);
    lens := Rows2(len, nGroups, |freq|);
    forall t | 0 <= t < nGroups ensures RowIs(lens[t], starts[nGroups - 1 - t], starts[nGroups - t], |freq|) {
      assert Owned(len, starts, nGroups, t, |freq|);
    }
    assert RowsAre(lens, starts, |freq|);
  }

  /** Every table has an entry for every symbol, no greater than a limit. */
  ghost predicate Sized(lens: seq<seq<nat>>, nGroups: nat, alphaSize: nat) {
    |lens| == nGroups && forall t :: 0 <= t < nGroups ==> SizedTable(lens[t], alphaSize)
  }

  ghost predicate SizedTable(table: seq<nat>, alphaSize: nat) {
    |table| == alphaSize && forall v :: 0 <= v < alphaSize ==> table[v] < 256
  }

  lemma SizedCovers(lens: seq<seq<nat>>, nGroups: nat, alphaSize: nat, syms: seq<nat>)
    requires Sized(lens, nGroups, alphaSize) && forall k :: 0 <= k < |syms| ==> syms[k] < alphaSize
    ensures forall t :: 0 <= t < |lens| ==> Covers(lens[t], syms)
  {
  }

  ghost predicate AllUsable(lens: seq<seq<nat>>, nGroups: nat, alphaSize: nat) {
    |lens| == nGroups && forall t :: 0 <= t < nGroups ==> Usable(lens[t], alphaSize)
  }

  /** A cheapest code for these frequencies, rescaled if need be. */
  ghost predicate CodeFor(table: seq<nat>, freq: seq<nat>) {
    exists times: nat ::
      HuffmanLengths.Tried(freq, times) && HuffmanCheap.Optimal(table, HuffmanLengths.Rescaled(freq, times))
  }

  /** One round: every group picks its cheapest table, and every table becomes a
      cheapest code for the values of the groups that picked it. */
  ghost predicate Round(lens: seq<seq<nat>>, better: seq<seq<nat>>, sel: seq<nat>, syms: seq<nat>, alphaSize: nat) {
    && |better| == |lens| && |sel| == (|syms| + BZ_G_SIZE - 1) / BZ_G_SIZE
    && (forall t :: 0 <= t < |lens| ==> Covers(lens[t], syms)) && Chosen(sel, lens, syms)
    && forall t :: 0 <= t < |better| ==> CodeFor(better[t], UsesRow(sel, syms, |syms|, t, alphaSize))
  }

  /** One of the rounds that improve the tables. */
  method Improve(lens: seq<seq<nat>>, syms: seq<nat>, nGroups: nat, alphaSize: nat)
      returns (better: seq<seq<nat>>, sel: seq<nat>)
    requires 0 < nGroups <= BZ_N_GROUPS && 2 <= alphaSize <= BZ_MAX_ALPHA_SIZE && |syms| <= BZ_G_SIZE * BZ_MAX_SELECTORS
    requires Sized(lens, nGroups, alphaSize) && forall k :: 0 <= k < |syms| ==> syms[k] < alphaSize
    ensures AllUsable(better, nGroups, alphaSize) && Round(lens, better, sel, syms, alphaSize)
    ensures |sel| == (|syms| + BZ_G_SIZE - 1) / BZ_G_SIZE && forall g :: 0 <= g < |sel| ==> sel[g] < nGroups
  {
    hide Usable, Counted, Chosen, CodeFor, Covers;
    var rfreq := new nat[BZ_N_GROUPS, BZ_MAX_ALPHA_SIZE]((t, v) => 0);
    SizedCovers(lens, nGroups, alphaSize, syms);
    sel := Pass(rfreq, lens, syms, alphaSize);
    var rows := Rows2(rfreq, nGroups, alphaSize);
    forall t | 0 <= t < nGroups
      ensures HuffmanLengths.Sum1(rows[t], alphaSize) <= HuffmanLengths.MAX_TOTAL
      ensures rows[t] == UsesRow(sel, syms, |syms|, t, alphaSize)
    {
      RowFits(rfreq, rows[t], sel, syms, t, nGroups, alphaSize);
    }
    better := [];
    for t := 0 to nGroups
      invariant |better| == t
        && forall u :: 0 <= u < t ==> Usable(better[u], alphaSize) && CodeFor(better[u], rows[u])
    {
      var table, times := HuffmanLengths.MakeCodeLengths(rows[t]);
      GoodIsUsable(table, alphaSize);
      IsCode(table, rows[t], times);
      better := better + [table];
    }
  }

  lemma IsCode(table: seq<nat>, freq: seq<nat>, times: nat)
    requires HuffmanLengths.Tried(freq, times) && HuffmanCheap.Optimal(table, HuffmanLengths.Rescaled(freq, times))
    ensures CodeFor(table, freq)
  {
  }

  lemma GoodIsUsable(lens: seq<nat>, alphaSize: nat)
    requires HuffmanLengths.Good(lens, alphaSize)
    ensures Usable(lens, alphaSize)
  {
  }

  lemma UsableSized(lens: seq<seq<nat>>, nGroups: nat, alphaSize: nat)
    requires AllUsable(lens, nGroups, alphaSize)
    ensures Sized(lens, nGroups, alphaSize)
  {
    forall t | 0 <= t < nGroups ensures SizedTable(lens[t], alphaSize) {
      assert Usable(lens[t], alphaSize);
    }
  }

  /** The tables before every round and after the last, and what was picked. */
  ghost predicate Rounds(tables: seq<seq<seq<nat>>>, sels: seq<seq<nat>>, syms: seq<nat>, alphaSize: nat) {
    && |tables| == |sels| + 1
    && forall k, j :: 0 <= k < |sels| && j == k + 1 ==> Round(tables[k], tables[j], sels[k], syms, alphaSize)
  }

  lemma RoundsMore(tables: seq<seq<seq<nat>>>, sels: seq<seq<nat>>, syms: seq<nat>, alphaSize: nat,
      better: seq<seq<nat>>, sel: seq<nat>)
    requires Rounds(tables, sels, syms, alphaSize) && Round(tables[|sels|], better, sel, syms, alphaSize)
    ensures Rounds(tables + [better], sels + [sel], syms, alphaSize)
  {
    hide Round;
  }

  /** Tables and selectors as the compressor chooses them: from the first guess,
      with as many tables as there are values for, in four rounds. */
  ghost predicate ChosenTables(lens: seq<seq<nat>>, sel: seq<nat>, syms: seq<nat>, alphaSize: nat) {
    && |lens| == (if |syms| < 200 then 2 else if |syms| < 600 then 3 else if |syms| < 1200 then 4
      else if |syms| < 2400 then 5 else 6)
    && exists tables: seq<seq<seq<nat>>>, sels: seq<seq<nat>> ::
      && Rounds(tables, sels, syms, alphaSize) && |sels| == 4 && sels[3] == sel && tables[4] == lens
      && |tables[0]| == |lens| && FirstGuess(tables[0], Frequencies(syms, alphaSize))
  }

  /** The tables and selectors after all rounds. */
  method ChooseTables(syms: seq<nat>, freq: seq<nat>, alphaSize: nat) returns (lens: seq<seq<nat>>, sel: seq<nat>)
    requires 2 <= alphaSize <= BZ_MAX_ALPHA_SIZE && |syms| <= BZ_G_SIZE * BZ_MAX_SELECTORS
      && (forall k :: 0 <= k < |syms| ==> syms[k] < alphaSize)
    requires freq == Frequencies(syms, alphaSize) && freq[alphaSize - 1] > 0
    ensures AllUsable(lens, GroupsFor(|syms|), alphaSize) && ChosenTables(lens, sel, syms, alphaSize)
    ensures |sel| == (|syms| + BZ_G_SIZE - 1) / BZ_G_SIZE && forall g :: 0 <= g < |sel| ==> sel[g] < |lens|
  {
    hide Usable, Round, FirstGuess;
    var nGroups := GroupsFor(|syms|);
    FrequenciesSum(syms, alphaSize);
    lens := FirstTables(freq, |syms|, nGroups);
    sel := [];
    ghost var tables, sels := [lens], [];
    for iter := 0 to BZ_N_ITERS
      invariant Sized(lens, nGroups, alphaSize)
      invariant iter > 0 ==> AllUsable(lens, nGroups, alphaSize)
      invariant iter > 0 ==> |sel| == (|syms| + BZ_G_SIZE - 1) / BZ_G_SIZE && forall g :: 0 <= g < |sel| ==>
        sel[g] < nGroups
      invariant Rounds(tables, sels, syms, alphaSize) && |sels| == iter && tables[iter] == lens
        && |tables[0]| == nGroups && FirstGuess(tables[0], freq) && (iter > 0 ==> sels[iter - 1] == sel)
    {
      ghost var was := tables;
      lens, sel := Improve(lens, syms, nGroups, alphaSize);
      UsableSized(lens, nGroups, alphaSize);
      RoundsMore(tables, sels, syms, alphaSize, lens, sel);
      tables, sels := tables + [lens], sels + [sel];
    }
  }

  // ----- the bits ----------------------------------------------------------

  /** Tables for which codes exist can code every value. */
  lemma UsableCodes(lens: seq<seq<nat>>, sel: seq<nat>, syms: seq<nat>, alphaSize: nat)
    requires AllUsable(lens, |lens|, alphaSize) && (forall k :: 0 <= k < |syms| ==> syms[k] < alphaSize)
    requires |sel| == (|syms| + BZ_G_SIZE - 1) / BZ_G_SIZE && forall g :: 0 <= g < |sel| ==> sel[g] < |lens|
    ensures AllCodable(lens, sel, syms)
  {
    hide Code;
    forall k | 0 <= k < |syms| ensures Codable(lens, sel, syms, k) {
      var table := lens[sel[k / BZ_G_SIZE]];
      assert Usable(table, alphaSize);
      FitIffKraft(table);
    }
  }

  lemma UsableLengths(lens: seq<seq<nat>>, alphaSize: nat)
    requires AllUsable(lens, |lens|, alphaSize) && alphaSize > 0
    ensures Lengths(lens, alphaSize)
  {
    forall t | 0 <= t < |lens|
      ensures |lens[t]| == alphaSize && forall i :: 0 <= i < alphaSize ==> 1 <= lens[t][i] <= 20
    {
      assert Usable(lens[t], alphaSize);
    }
  }

  /** The codes of all tables. */
  method AssignAll(lens: seq<seq<nat>>, alphaSize: nat) returns (codes: seq<seq<nat>>)
    requires AllUsable(lens, |lens|, alphaSize) && alphaSize > 0
    ensures Assigned(codes, lens)
  {
    codes := [];
    for t := 0 to |lens|
      invariant |codes| == t && forall u :: 0 <= u < t ==> AssignedTo(codes[u], lens[u])
    {
      assert Usable(lens[t], alphaSize);
      var code := AssignOne(lens[t]);
      codes := codes + [code];
    }
  }

  /** The codes of one table, between its shortest and its longest length. */
  method AssignOne(lens: seq<nat>) returns (codes: seq<nat>)
    requires lens != [] && forall i :: 0 <= i < |lens| ==> 1 <= lens[i] <= MAX_LEN
    ensures AssignedTo(codes, lens)
  {
    var minLen, maxLen := 32, 0;
    for i := 0 to |lens|
      invariant forall k :: 0 <= k < i ==> minLen <= lens[k] <= maxLen
      invariant if i == 0 then minLen == 32 && maxLen == 0 else 1 <= minLen <= maxLen <= MAX_LEN
    {
      if lens[i] > maxLen {
        maxLen := lens[i];
      }
      if lens[i] < minLen {
        minLen := lens[i];
      }
    }
    var code := new nat[|lens|];
    AssignCodes(code, lens, minLen, maxLen);
    codes := code[..];
  }

  ghost predicate Sendable(inUse: seq<bool>, syms: seq<nat>) {
    && |inUse| == 256 && Rank(inUse, 256) > 0 && Ended(syms, Eob(inUse))
      && (|syms| + BZ_G_SIZE - 1) / BZ_G_SIZE <= BZ_MAX_SELECTORS
    && forall k :: 0 <= k < |syms| ==> syms[k] < Eob(inUse) + 1
  }

  lemma EndCounted(inUse: seq<bool>, syms: seq<nat>)
    requires Sendable(inUse, syms)
    ensures Frequencies(syms, Eob(inUse) + 1)[Eob(inUse)] > 0 && 2 <= Eob(inUse) + 1 <= BZ_MAX_ALPHA_SIZE
  {
  }

  lemma IsWellCoded(c: Coded, sel: seq<nat>)
    requires Sendable(c.inUse, c.syms) && c.origPtr < Pow2(24) && 2 <= |c.lens| <= BZ_N_GROUPS
    requires AllUsable(c.lens, |c.lens|, Eob(c.inUse) + 1)
    requires |sel| == (|c.syms| + BZ_G_SIZE - 1) / BZ_G_SIZE && forall g :: 0 <= g < |sel| ==> sel[g] < |c.lens|
    requires |c.places| == |sel| && Placed(c.places, |c.lens|) && Selectors(c.places, |c.lens|) == sel
    ensures WellCoded(c)
  {
    hide Selectors;
    UsableCodes(c.lens, sel, c.syms, Eob(c.inUse) + 1);
    UsableLengths(c.lens, Eob(c.inUse) + 1);
  }

  lemma Chain<T>(b: seq<T>, f: seq<T>, o: seq<T>, m: seq<T>, g: seq<T>, t: seq<T>, d: seq<T>)
    ensures b + f + o + m + g + t + d == b + (f + (o + (m + (g + (t + d)))))
  {
  }

  lemma Nest<T>(g: seq<T>, n: seq<T>, u: seq<T>, t: seq<T>, d: seq<T>)
    ensures g + (n + (u + (t + d))) == (g + (n + u)) + (t + d)
  {
  }

  lemma BodyIs(c: Coded, sel: seq<nat>)
    requires WellCoded(c) && Selectors(c.places, |c.lens|) == sel
    ensures BodyBits(c) == [false] + (Low(c.origPtr, 24) + (MapBits(c.inUse) +
      ((Low(|c.lens|, 3) + (Low(|c.places|, 15) + Unaries(c.places))) + (Tables(c.lens) + DataBits(c.lens, sel, c.syms, |c.syms|)))))
  {
    hide Low, MapBits, Unaries, Tables, DataBits, Selectors;
    Nest(Low(|c.lens|, 3), Low(|c.places|, 15), Unaries(c.places), Tables(c.lens),
      DataBits(c.lens, sel, c.syms, |c.syms|));
  }

  lemma CodedParts(c: Coded)
    requires WellCoded(c)
    ensures |c.inUse| == 256 && |c.lens| < 8 && |c.places| < 32768 && Lengths(c.lens, Eob(c.inUse) + 1)
      && c.origPtr < Pow2(24)
    ensures Placed(c.places, |c.lens|) && AllCodable(c.lens, Selectors(c.places, |c.lens|), c.syms)
    ensures Low(0, 1) == [false] && Pow2(1) == 2 && forall t :: 0 <= t < |c.lens| ==> c.lens[t] != []
  {
    TwoBits();
  }

  /** The parts of a body, in order. */
  method WriteParts(w: BitWriter, codes: seq<seq<nat>>, sel: seq<nat>, c: Coded)
    requires w.Valid() && w.bsLive >= 0 && WellCoded(c) && Selectors(c.places, |c.lens|) == sel
      && Assigned(codes, c.lens)
    modifies w
    ensures w.Valid() && w.bsLive >= 0 && w.Bits() == old(w.Bits()) + BodyBits(c)
  {
    hide *;
    CodedParts(c);
    w.W(1, 0);
    w.W(24, c.origPtr);
    WriteMap(w, c.inUse);
    WriteSelectors(w, |c.lens|, c.places);
    WriteTables(w, c.lens, Eob(c.inUse) + 1);
    WriteData(w, codes, c.lens, sel, c.syms);
    BodyIs(c, sel);
    Chain(old(w.Bits()), [false], Low(c.origPtr, 24), MapBits(c.inUse), Low(|c.lens|, 3) + (Low(|c.places|, 15) + Unaries(c.places)),
      Tables(c.lens), DataBits(c.lens, sel, c.syms, |c.syms|));
  }

  /** The tables and selectors of a body are those the compressor chooses. */
  ghost predicate WellChosen(c: Coded) {
    var alphaSize := Eob(c.inUse) + 1;
    && Placed(c.places, |c.lens|)
    && exists sel: seq<nat> :: ChosenTables(c.lens, sel, c.syms, alphaSize) && sel == Selectors(c.places, |c.lens|)
  }

  lemma GroupCount(c: Coded, sel: seq<nat>)
    requires ChosenTables(c.lens, sel, c.syms, Eob(c.inUse) + 1)
    ensures 2 <= |c.lens| <= BZ_N_GROUPS
  {
  }

  lemma IsWellChosen(c: Coded, sel: seq<nat>)
    requires Placed(c.places, |c.lens|) && Selectors(c.places, |c.lens|) == sel
      && ChosenTables(c.lens, sel, c.syms, Eob(c.inUse) + 1)
    ensures WellChosen(c)
  {
    hide ChosenTables, Selectors;
  }

  /** sendMTFValues, after the randomisation bit and the origin: what is written
      is a well-formed body with exactly these values. */
  method SendBody(w: BitWriter, origPtr: nat, inUse: seq<bool>, syms: seq<nat>, mtfFreq: seq<nat>) returns (c: Coded)
    requires w.Valid() && w.bsLive >= 0 && origPtr < Pow2(24) && Sendable(inUse, syms)
    requires mtfFreq == Frequencies(syms, Eob(inUse) + 1)
    modifies w
    ensures w.Valid() && w.bsLive >= 0 && c.origPtr == origPtr && c.inUse == inUse && c.syms == syms
    ensures AllUsable(c.lens, |c.lens|, Eob(inUse) + 1) && |c.places| == (|syms| + BZ_G_SIZE - 1) / BZ_G_SIZE
    ensures WellCoded(c) && WellChosen(c) && w.Bits() == old(w.Bits()) + BodyBits(c)
  {
    hide Usable, WellCoded, Frequencies, BitWriter.Valid, BitWriter.Bits, BodyBits, Selectors, Rank, Ended, Assigned,
      ChosenTables, WellChosen;
    EndCounted(inUse, syms);
    var alphaSize := Eob(inUse) + 1;
    var lens, sel := ChooseTables(syms, mtfFreq, alphaSize);
    var places := SelectorPlaces(sel, |lens|);
    var codes := AssignAll(lens, alphaSize);
    c := Coded(origPtr, inUse, places, lens, syms);
    GroupCount(c, sel);
    IsWellCoded(c, sel);
    IsWellChosen(c, sel);
    WriteParts(w, codes, sel, c);
  }
}
