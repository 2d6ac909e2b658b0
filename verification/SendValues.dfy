/** Sending the MTF values: passes over the groups that choose tables and count
    what each table codes, then the side information and the codes. */
module SendValues {
  import opened Sizes
  import opened Permutations
  import opened MtfCoding
  import opened SideInfo
  import opened BlockBody
  import CT = CodingTables

  /** How often value v is coded by table t among the first k values. */
  function Uses(sel: seq<nat>, syms: seq<nat>, k: nat, t: nat, v: nat): nat
    requires k <= |syms| && k <= BZ_G_SIZE * |sel|
  {
    if k == 0 then 0 else Uses(sel, syms, k - 1, t, v) + if sel[(k - 1) / BZ_G_SIZE] == t && syms[k - 1] == v then 1 else 0
  }

  lemma {:induction false} UsesStable(sel: seq<nat>, more: seq<nat>, syms: seq<nat>, k: nat, t: nat, v: nat)
    requires k <= |syms| && k <= BZ_G_SIZE * |sel| && sel <= more
    ensures Uses(more, syms, k, t, v) == Uses(sel, syms, k, t, v)
  {
    if k > 0 {
      UsesStable(sel, more, syms, k - 1, t, v);
    }
  }

  /** Every group has the cheapest table. */
  ghost predicate Chosen(sel: seq<nat>, lens: seq<seq<nat>>, syms: seq<nat>)
    requires forall t :: 0 <= t < |lens| ==> CT.Covers(lens[t], syms)
  {
    forall g :: 0 <= g < |sel| && BZ_G_SIZE * g < |syms| ==>
      CT.Cheapest(sel[g], lens, syms, BZ_G_SIZE * g, Min(BZ_G_SIZE * g + BZ_G_SIZE, |syms|))
  }

  function Min(a: nat, b: nat): nat {
    if a < b then a else b
  }

  /** rfreq counts the first k values under their tables. */
  ghost predicate Counted(rfreq: array2<nat>, sel: seq<nat>, syms: seq<nat>, k: nat, nGroups: nat, alphaSize: nat)
    requires k <= |syms| && k <= BZ_G_SIZE * |sel| && nGroups <= rfreq.Length0 && alphaSize <= rfreq.Length1
    reads rfreq
  {
    forall t: nat, v: nat :: t < nGroups && v < alphaSize ==> rfreq[t, v] == Uses(sel, syms, k, t, v)
  }

  /** The frequencies of one group under the table chosen for it. */
  method CountGroup(rfreq: array2<nat>, sel: seq<nat>, syms: seq<nat>, gs: nat, ge: nat, bt: nat, nGroups: nat,
      alphaSize: nat)
    requires gs <= ge < |syms| && gs == BZ_G_SIZE * (|sel| - 1) && ge < gs + BZ_G_SIZE && sel != []
      && sel[|sel| - 1] == bt
    requires bt < nGroups <= rfreq.Length0 && alphaSize <= rfreq.Length1
      && forall k :: 0 <= k < |syms| ==> syms[k] < alphaSize
    requires Counted(rfreq, sel, syms, gs, nGroups, alphaSize)
    modifies rfreq
    ensures Counted(rfreq, sel, syms, ge + 1, nGroups, alphaSize)
  {
    for i := gs to ge + 1
      invariant Counted(rfreq, sel, syms, i, nGroups, alphaSize)
    {
      assert i / BZ_G_SIZE == |sel| - 1;
      rfreq[bt, syms[i]] := rfreq[bt, syms[i]] + 1;
    }
  }

  /** One pass: every group gets its cheapest table, and each table's uses are
      counted. */
  method Pass(rfreq: array2<nat>, lens: seq<seq<nat>>, syms: seq<nat>, alphaSize: nat) returns (sel: seq<nat>)
    requires 0 < |lens| <= rfreq.Length0 && alphaSize <= rfreq.Length1
    requires forall t :: 0 <= t < |lens| ==> CT.Covers(lens[t], syms)
    requires forall k :: 0 <= k < |syms| ==> syms[k] < alphaSize
    requires forall t, v :: 0 <= t < |lens| && 0 <= v < alphaSize ==> rfreq[t, v] == 0
    modifies rfreq
    ensures |sel| == (|syms| + BZ_G_SIZE - 1) / BZ_G_SIZE && Chosen(sel, lens, syms)
    ensures forall g :: 0 <= g < |sel| ==> sel[g] < |lens|
    ensures Counted(rfreq, sel, syms, |syms|, |lens|, alphaSize)
  {
    hide CT.Covers, CT.Cheapest;
    sel := [];
    var gs := 0;
    while gs < |syms|
      invariant gs == Min(BZ_G_SIZE * |sel|, |syms|) && BZ_G_SIZE * |sel| < |syms| + BZ_G_SIZE
      invariant Chosen(sel, lens, syms) && Counted(rfreq, sel, syms, gs, |lens|, alphaSize)
      invariant forall g :: 0 <= g < |sel| ==> sel[g] < |lens|
      decreases |syms| - gs
    {
      var ge := gs + BZ_G_SIZE - 1;
      if ge >= |syms| {
        ge := |syms| - 1;
      }
      var bt := CT.BestTable(lens, syms, gs, ge);
      ChosenMore(sel, lens, syms, gs, ge, bt);
      forall t: nat, v: nat | t < |lens| && v < alphaSize
        ensures Uses(sel + [bt], syms, gs, t, v) == Uses(sel, syms, gs, t, v)
      {
        UsesStable(sel, sel + [bt], syms, gs, t, v);
      }
      CheapestExists(lens, syms, gs, ge, bt);
      sel := sel + [bt];
      CountGroup(rfreq, sel, syms, gs, ge, bt, |lens|, alphaSize);
      gs := ge + 1;
    }
  }

  lemma CheapestExists(lens: seq<seq<nat>>, syms: seq<nat>, gs: nat, ge: nat, bt: nat)
    requires gs <= ge < |syms| && (forall t :: 0 <= t < |lens| ==> CT.Covers(lens[t], syms))
      && CT.Cheapest(bt, lens, syms, gs, ge + 1)
    ensures bt < |lens|
  {
  }

  lemma ChosenMore(sel: seq<nat>, lens: seq<seq<nat>>, syms: seq<nat>, gs: nat, ge: nat, bt: nat)
    requires forall t :: 0 <= t < |lens| ==> CT.Covers(lens[t], syms)
    requires Chosen(sel, lens, syms) && gs == BZ_G_SIZE * |sel| < |syms| && ge + 1 == Min(gs + BZ_G_SIZE, |syms|)
    requires CT.Cheapest(bt, lens, syms, gs, ge + 1)
    ensures Chosen(sel + [bt], lens, syms)
  {
    hide CT.Covers, CT.Cheapest;
  }

  /** At most 18002 groups of fifty fit the largest block. */
  lemma SelectorsFit(nblock: nat, nMTF: nat)
    requires nblock <= 900000 - 10 && nMTF <= nblock + 1
    ensures (nMTF + BZ_G_SIZE - 1) / BZ_G_SIZE <= BZ_MAX_SELECTORS < 32768
  {
  }

  // ----- the selectors as places in a list ---------------------------------

  /** The list after these places have been moved to the front in turn. */
  function After(pos: seq<int>, js: seq<nat>): (r: seq<int>)
    requires Placed(js, |pos|)
    ensures |r| == |pos|
    decreases |js|
  {
    if js == [] then pos else After(ToFront(pos, js[0]), js[1..])
  }

  lemma {:induction false} SelectedMore(pos: seq<int>, js: seq<nat>, j: nat)
    requires Placed(js, |pos|) && j < |pos|
    ensures Placed(js + [j], |pos|)
    ensures Selected(pos, js + [j]) == Selected(pos, js) + [After(pos, js)[j]]
    ensures After(pos, js + [j]) == ToFront(After(pos, js), j)
    decreases |js|
  {
    var more := js + [j];
    if js == [] {
      assert more[1..] == [];
    } else {
      assert more[1..] == js[1..] + [j];
      SelectedMore(ToFront(pos, js[0]), js[1..], j);
    }
  }

  /** Finds ll in the list, moving everything before it up by one. */
  method FindPlace(pos: array<int>, ll: int) returns (j: nat)
    requires IsPerm(pos[..]) && 0 <= ll < pos.Length
    modifies pos
    ensures j < pos.Length && old(pos[..])[j] == ll && pos[..] == ToFront(old(pos[..]), j)
  {
    hide IsPerm, ToFront;
    ghost var list := pos[..];
    PermOnto(list, ll);
    ghost var at :| 0 <= at < |list| && list[at] == ll;
    j := 0;
    var tmp := pos[j];
    while ll != tmp
      invariant 0 <= j <= at && tmp == list[j] && pos[0] == list[0]
      invariant forall k :: 0 < k <= j ==> pos[k] == list[k - 1]
      invariant forall k :: j < k < |list| ==> pos[k] == list[k]
      decreases at - j
    {
      j := j + 1;
      var tmp2 := tmp;
      tmp := pos[j];
      pos[j] := tmp2;
    }
    pos[0] := tmp;
    ShiftedIs(list, pos[..], j);
  }

  /** The places lead the decoder back to the selectors. */
  method SelectorPlaces(sel: seq<nat>, nGroups: nat) returns (places: seq<nat>)
    requires forall g :: 0 <= g < |sel| ==> sel[g] < nGroups
    ensures |places| == |sel| && Placed(places, nGroups) && Selectors(places, nGroups) == sel
  {
    hide IsPerm, Selected, After;
    var pos := new int[nGroups];
    for i := 0 to nGroups
      invariant forall k :: 0 <= k < i ==> pos[k] == k
    {
      pos[i] := i;
    }
    ghost var start := Start(nGroups).list;
    assert pos[..] == start;
    StartsAsPerm(nGroups);
    places := [];
    for i := 0 to |sel|
      invariant |places| == i && Placed(places, nGroups) && IsPerm(pos[..])
      invariant Selected(start, places) == sel[..i] && After(start, places) == pos[..]
    {
      ghost var was := pos[..];
      var j := FindPlace(pos, sel[i]);
      SelectedMore(start, places, j);
      ToFrontPerm(was, j);
      places := places + [j];
      assert sel[..i + 1] == sel[..i] + [sel[i]];
    }
    assert sel[..|sel|] == sel;
  }

  lemma StartsAsPerm(n: nat)
    ensures IsPerm(Start(n).list) && Selected(Start(n).list, []) == [] && After(Start(n).list, []) == Start(n).list
  {
  }
}
