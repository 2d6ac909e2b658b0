/** Choosing coding tables: the first guess, the cost of a group under each
    table, and the choice. */
module CodingTables {
  import opened Sizes

  const BZ_LESSER_ICOST := 0
  const BZ_GREATER_ICOST := 15

  // ----- the initial tables ------------------------------------------------

  function Sum(freq: seq<nat>, from: nat, to: nat): nat
    requires from <= to <= |freq|
  {
    if from == to then 0 else Sum(freq, from, to - 1) + freq[to - 1]
  }

  lemma {:induction false} SumSplit(freq: seq<nat>, from: nat, mid: nat, to: nat)
    requires from <= mid <= to <= |freq|
    ensures Sum(freq, from, to) == Sum(freq, from, mid) + Sum(freq, mid, to)
  {
    if mid < to {
      SumSplit(freq, from, mid, to - 1);
    }
  }

  lemma SumAtLeastLast(freq: seq<nat>, from: nat)
    requires from < |freq|
    ensures Sum(freq, from, |freq|) >= freq[|freq| - 1]
  {
  }

  /** nGroups for a number of MTF values */
  function GroupsFor(nMTF: nat): (g: nat)
    ensures 2 <= g <= 6
  {
    if nMTF < 200 then 2 else if nMTF < 600 then 3 else if nMTF < 1200 then 4 else if nMTF < 2400 then 5 else 6
  }

  /** Range gs..e is the shortest that has the frequency aimed at, or reaches the
      end of the alphabet. */
  ghost predicate Reaches(freq: seq<nat>, gs: nat, e: int, tFreq: nat) {
    && gs <= e + 1 <= |freq| && (Sum(freq, gs, e + 1) >= tFreq || e == |freq| - 1)
    && (e >= gs ==> Sum(freq, gs, e) < tFreq)
  }

  /** The range of table nPart - 1: it aims at an equal part of what is left; every
      second one, but the first and the last, gives up its last symbol. */
  ghost predicate RangeIs(freq: seq<nat>, gs: nat, to: nat, nPart: nat, nGroups: nat) {
    && gs <= |freq| && 0 < nPart <= nGroups
    && exists e :: Reaches(freq, gs, e, Sum(freq, gs, |freq|) / nPart)
        && to == if e > gs && 1 < nPart < nGroups && (nGroups - nPart) % 2 == 1 then e else e + 1
  }

  /** The end of the next range. */
  method RangeEnd(freq: seq<nat>, gs: nat, nPart: nat, nGroups: nat, tFreq: nat) returns (ge: int, aFreq: nat)
    requires gs <= |freq| && 0 < nPart <= nGroups && tFreq == Sum(freq, gs, |freq|) / nPart
    ensures gs <= ge + 1 <= |freq| && aFreq == Sum(freq, gs, ge + 1) && RangeIs(freq, gs, ge + 1, nPart, nGroups)
    ensures nPart == 1 ==> aFreq >= tFreq || ge == |freq| - 1
  {
    ge := gs - 1;
    aFreq := 0;
    while aFreq < tFreq && ge < |freq| - 1
      invariant gs <= ge + 1 <= |freq| && aFreq == Sum(freq, gs, ge + 1) && (ge >= gs ==> Sum(freq, gs, ge) < tFreq)
    {
      ge := ge + 1;
      aFreq := aFreq + freq[ge];
    }
    assert Reaches(freq, gs, ge, tFreq);
    if ge > gs && nPart != nGroups && nPart != 1 && (nGroups - nPart) % 2 == 1 {
      aFreq := aFreq - freq[ge];
      ge := ge - 1;
    }
  }

  /** Row t is cheap exactly for the symbols of its range; the ranges are listed
      from the last table down. */
  ghost predicate Owned(len: array2<nat>, starts: seq<nat>, nGroups: nat, t: nat, alphaSize: nat)
    requires t < nGroups <= len.Length0 && alphaSize <= len.Length1 && nGroups - t < |starts|
    reads len
  {
    forall v :: 0 <= v < alphaSize ==>
      len[t, v] == if starts[nGroups - 1 - t] <= v < starts[nGroups - t] then BZ_LESSER_ICOST else BZ_GREATER_ICOST
  }

  method FillRow(len: array2<nat>, t: nat, gs: nat, ge: int, alphaSize: nat)
    requires t < len.Length0 && alphaSize <= len.Length1 && gs <= ge + 1
    modifies len
    ensures forall v :: 0 <= v < alphaSize ==> len[t, v] == if gs <= v <= ge then BZ_LESSER_ICOST else BZ_GREATER_ICOST
    ensures forall u, v :: 0 <= u < len.Length0 && 0 <= v < len.Length1 && u != t ==> len[u, v] == old(len[u, v])
  {
    for v := 0 to alphaSize
      invariant forall w :: 0 <= w < v ==> len[t, w] == if gs <= w <= ge then BZ_LESSER_ICOST else BZ_GREATER_ICOST
      invariant forall u, w :: 0 <= u < len.Length0 && 0 <= w < len.Length1 && u != t ==> len[u, w] == old(len[u, w])
    {
      len[t, v] := if v >= gs && v <= ge then BZ_LESSER_ICOST else BZ_GREATER_ICOST;
    }
  }

  /** Where the ranges begin: that of the last table first, one after the other. */
  ghost predicate Divides(freq: seq<nat>, starts: seq<nat>, nGroups: nat) {
    && 0 < |starts| <= nGroups + 1 && starts[0] == 0
    && (forall k :: 0 <= k < |starts| ==> starts[k] <= |freq|)
    && forall k, j :: 0 <= k && j == k + 1 < |starts| ==>
        starts[k] <= starts[j] && RangeIs(freq, starts[k], starts[j], nGroups - k, nGroups)
  }

  lemma DividesMore(freq: seq<nat>, starts: seq<nat>, nGroups: nat, nPart: nat, to: nat)
    requires Divides(freq, starts, nGroups) && |starts| == nGroups - nPart + 1 && 0 < nPart
      && starts[|starts| - 1] <= to <= |freq| && RangeIs(freq, starts[|starts| - 1], to, nPart, nGroups)
    ensures Divides(freq, starts + [to], nGroups)
  {
    hide RangeIs;
  }

  lemma DividesNothing(freq: seq<nat>, nGroups: nat)
    ensures Divides(freq, [0], nGroups)
  {
  }

  /** What is left of the frequency after one more range. */
  lemma RestAfter(freq: seq<nat>, gs: nat, to: nat, nPart: nat)
    requires gs <= to <= |freq| && 0 < nPart
    ensures Sum(freq, to, |freq|) == Sum(freq, gs, |freq|) - Sum(freq, gs, to)
    ensures nPart == 1 && to < |freq| && freq[|freq| - 1] > 0 ==> Sum(freq, gs, to) < Sum(freq, gs, |freq|)
  {
    SumSplit(freq, gs, to, |freq|);
    if to < |freq| {
      SumAtLeastLast(freq, to);
    }
  }

  /** The first guess divides the alphabet among the tables: every symbol is
      cheap in exactly one of them, later symbols in tables with lower numbers. */
  method InitialTables(len: array2<nat>, freq: seq<nat>, nMTF: nat, nGroups: nat) returns (ghost starts: seq<nat>)
    requires nGroups <= len.Length0 && |freq| <= len.Length1 && 0 < nGroups
    requires freq != [] && nMTF == Sum(freq, 0, |freq|) && freq[|freq| - 1] > 0
    modifies len
    ensures |starts| == nGroups + 1 && starts[nGroups] == |freq| && Divides(freq, starts, nGroups)
    ensures forall t :: 0 <= t < nGroups ==> Owned(len, starts, nGroups, t, |freq|)
  {
    hide Owned, RangeIs, Divides, Sum;
    DividesNothing(freq, nGroups);
    var nPart, remF, gs := nGroups, nMTF, 0;
    starts := [0];
    while nPart > 0
      invariant nPart <= nGroups && 0 <= gs <= |freq| && remF == Sum(freq, gs, |freq|)
      invariant |starts| == nGroups - nPart + 1 && starts[|starts| - 1] == gs && Divides(freq, starts, nGroups)
      invariant forall t :: nPart <= t < nGroups ==> Owned(len, starts, nGroups, t, |freq|)
      invariant nPart == 0 ==> gs == |freq|
    {
      var tFreq := remF / nPart;
      var ge, aFreq := RangeEnd(freq, gs, nPart, nGroups, tFreq);
      RestAfter(freq, gs, ge + 1, nPart);
      DividesMore(freq, starts, nGroups, nPart, ge + 1);
      OwnRange(len, starts, gs, ge, nPart, nGroups, |freq|);
      starts := starts + [ge + 1];
      nPart := nPart - 1;
      gs := ge + 1;
      remF := remF - aFreq;
    }
  }

  /** Fills in the row of one table. */
  method OwnRange(len: array2<nat>, ghost starts: seq<nat>, gs: nat, ge: int, nPart: nat, nGroups: nat, alphaSize: nat)
    requires 0 < nPart <= nGroups <= len.Length0 && alphaSize <= len.Length1 && gs <= ge + 1 <= alphaSize
    requires |starts| == nGroups - nPart + 1 && starts[|starts| - 1] == gs
    requires forall t :: nPart <= t < nGroups ==> Owned(len, starts, nGroups, t, alphaSize)
    modifies len
    ensures var more := starts + [ge + 1];
      forall t :: nPart - 1 <= t < nGroups ==> Owned(len, more, nGroups, t, alphaSize)
  {
    ghost var more := starts + [ge + 1];
    label before:
    FillRow(len, nPart - 1, gs, ge, alphaSize);
    forall t | nPart <= t < nGroups ensures Owned(len, more, nGroups, t, alphaSize) {
      assert old@before(Owned(len, starts, nGroups, t, alphaSize));
      assert more[nGroups - 1 - t] == starts[nGroups - 1 - t] && more[nGroups - t] == starts[nGroups - t];
    }
    assert more[nGroups - nPart] == gs && more[nGroups - (nPart - 1)] == ge + 1;
  }

  // ----- what a group costs ------------------------------------------------

  /** The table has an unsigned char for every value. */
  ghost predicate Covers(table: seq<nat>, syms: seq<nat>) {
    && (forall v :: 0 <= v < |table| ==> table[v] < 256)
    && (forall k :: 0 <= k < |syms| ==> syms[k] < |table|)
  }

  /** The bits values from..to take under a table. */
  ghost function Cost(table: seq<nat>, syms: seq<nat>, from: nat, to: nat): nat
    requires from <= to <= |syms| && Covers(table, syms)
  {
    if from == to then 0 else Cost(table, syms, from, to - 1) + table[syms[to - 1]]
  }

  lemma {:induction false} CostBound(table: seq<nat>, syms: seq<nat>, from: nat, to: nat)
    requires from <= to <= |syms| && Covers(table, syms)
    ensures Cost(table, syms, from, to) <= 255 * (to - from)
  {
    if from < to {
      CostBound(table, syms, from, to - 1);
    }
  }

  /** Two lengths in one word. */
  function Pack(high: nat, low: nat): nat {
    high * 0x1_0000 + low
  }

  /** Sums of fifty packed lengths never carry from the low half into the high
      one, nor out of the word. */
  method PackedCost(low: seq<nat>, high: seq<nat>, syms: seq<nat>, gs: nat) returns (costLow: nat, costHigh: nat)
    requires Covers(low, syms) && Covers(high, syms) && gs + BZ_G_SIZE <= |syms|
    ensures costLow == Cost(low, syms, gs, gs + BZ_G_SIZE) && costHigh == Cost(high, syms, gs, gs + BZ_G_SIZE)
  {
    var cost := 0;
    for n := 0 to BZ_G_SIZE
      invariant cost == Pack(Cost(high, syms, gs, gs + n), Cost(low, syms, gs, gs + n))
    {
      CostBound(low, syms, gs, gs + n + 1);
      CostBound(high, syms, gs, gs + n + 1);
      var icv := syms[gs + n];
      cost := (cost + Pack(high[icv], low[icv])) % 0x1_0000_0000;
    }
    CostBound(low, syms, gs, gs + BZ_G_SIZE);
    costLow, costHigh := cost % 0x1_0000, cost / 0x1_0000;
  }

  ghost predicate Priced(cost: seq<nat>, lens: seq<seq<nat>>, syms: seq<nat>, from: nat, to: nat)
    requires from <= to <= |syms| && forall t :: 0 <= t < |lens| ==> Covers(lens[t], syms)
  {
    |cost| == |lens| && forall t :: 0 <= t < |lens| ==> cost[t] == Cost(lens[t], syms, from, to)
  }

  /** The fast track for six tables and a full group. */
  method FastCosts(lens: seq<seq<nat>>, syms: seq<nat>, gs: nat) returns (cost: seq<nat>)
    requires |lens| == 6 && gs + BZ_G_SIZE <= |syms| && forall t :: 0 <= t < |lens| ==> Covers(lens[t], syms)
    ensures Priced(cost, lens, syms, gs, gs + BZ_G_SIZE)
  {
    hide Cost, Covers;
    var c0, c1 := PackedCost(lens[0], lens[1], syms, gs);
    var c2, c3 := PackedCost(lens[2], lens[3], syms, gs);
    var c4, c5 := PackedCost(lens[4], lens[5], syms, gs);
    cost := [c0, c1, c2, c3, c4, c5];
  }

  /** The way for all other situations, in unsigned shorts. */
  method SlowCosts(lens: seq<seq<nat>>, syms: seq<nat>, gs: nat, ge: nat) returns (cost: seq<nat>)
    requires gs <= ge < |syms| && ge < gs + BZ_G_SIZE && forall t :: 0 <= t < |lens| ==> Covers(lens[t], syms)
    ensures Priced(cost, lens, syms, gs, ge + 1)
  {
    cost := seq(|lens|, t => 0);
    for i := gs to ge + 1
      invariant Priced(cost, lens, syms, gs, i)
    {
      ghost var was := cost;
      for t := 0 to |lens|
        invariant |cost| == |lens|
        invariant forall u :: 0 <= u < t ==> cost[u] == Cost(lens[u], syms, gs, i + 1)
        invariant forall u :: t <= u < |lens| ==> cost[u] == Cost(lens[u], syms, gs, i)
      {
        CostBound(lens[t], syms, gs, i + 1);
        cost := cost[t := (cost[t] + lens[t][syms[i]]) % 0x1_0000];
      }
    }
  }

  /** The cheapest table, the first of several. */
  ghost predicate Cheapest(bt: nat, lens: seq<seq<nat>>, syms: seq<nat>, from: nat, to: nat)
    requires from <= to <= |syms| && forall t :: 0 <= t < |lens| ==> Covers(lens[t], syms)
  {
    && bt < |lens|
    && (forall t :: 0 <= t < |lens| ==> Cost(lens[bt], syms, from, to) <= Cost(lens[t], syms, from, to))
    && (forall t :: 0 <= t < bt ==> Cost(lens[bt], syms, from, to) < Cost(lens[t], syms, from, to))
  }

  /** Both ways of adding up lead to the same choice. */
  method BestTable(lens: seq<seq<nat>>, syms: seq<nat>, gs: nat, ge: nat) returns (bt: nat)
    requires gs <= ge < |syms| && ge < gs + BZ_G_SIZE && lens != []
      && forall t :: 0 <= t < |lens| ==> Covers(lens[t], syms)
    ensures Cheapest(bt, lens, syms, gs, ge + 1)
  {
    hide Covers, Cost;
    var cost;
    if |lens| == 6 && BZ_G_SIZE == ge - gs + 1 {
      cost := FastCosts(lens, syms, gs);
    } else {
      cost := SlowCosts(lens, syms, gs, ge);
    }
    SmallCost(lens, syms, gs, ge);
    var bc, best := 999999999, -1;
    for t := 0 to |lens|
      invariant -1 <= best < t && (t > 0 ==> best >= 0 && bc == cost[best]) && (t == 0 ==> bc == 999999999)
      invariant forall u :: 0 <= u < t ==> bc <= cost[u]
      invariant forall u :: 0 <= u < best ==> bc < cost[u]
    {
      if cost[t] < bc {
        bc := cost[t];
        best := t;
      }
    }
    bt := best;
  }

  lemma SmallCost(lens: seq<seq<nat>>, syms: seq<nat>, gs: nat, ge: nat)
    requires gs <= ge < |syms| && ge < gs + BZ_G_SIZE && forall t :: 0 <= t < |lens| ==> Covers(lens[t], syms)
    ensures forall t :: 0 <= t < |lens| ==> Cost(lens[t], syms, gs, ge + 1) < 999999999
  {
    forall t | 0 <= t < |lens| ensures Cost(lens[t], syms, gs, ge + 1) < 999999999 {
      CostBound(lens[t], syms, gs, ge + 1);
    }
  }
}
