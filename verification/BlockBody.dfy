/** The coded body of a block, and the decoder's way back through it. */
module BlockBody {
  import opened Arithmetic
  import opened Sizes
  import opened BitStream
  import opened MtfCoding
  import opened SideInfo
  import opened Codes
  import opened UsedBytes

  /** Everything a block body says: where the block is in the sorted order, the
      bytes in use, the selectors as places in their move-to-front list, the
      code lengths, and the MTF values. */
  datatype Coded = Coded(origPtr: nat, inUse: seq<bool>, places: seq<nat>, lens: seq<seq<nat>>, syms: seq<nat>)

  function Eob(inUse: seq<bool>): nat {
    Rank(inUse, |inUse|) + 1
  }

  predicate Placed(places: seq<nat>, nGroups: nat) {
    forall i :: 0 <= i < |places| ==> places[i] < nGroups
  }

  /** The table each group of fifty values uses. */
  function Selectors(places: seq<nat>, nGroups: nat): seq<int>
    requires Placed(places, nGroups)
  {
    Selected(Start(nGroups).list, places)
  }

  // ----- the values proper -------------------------------------------------

  /** Value k has a table, and the table has a code for it that fits. */
  predicate Codable(lens: seq<seq<nat>>, sel: seq<int>, syms: seq<nat>, k: nat)
    requires k < |syms|
  {
    && k / BZ_G_SIZE < |sel| && 0 <= sel[k / BZ_G_SIZE] < |lens|
    && var table := lens[sel[k / BZ_G_SIZE]];
    syms[k] < |table| && 1 <= table[syms[k]] <= BZ_MAX_LEN && Code(table, syms[k]) < Pow2(table[syms[k]])
  }

  function ValueBits(lens: seq<seq<nat>>, sel: seq<int>, syms: seq<nat>, k: nat): seq<bool>
    requires k < |syms| && Codable(lens, sel, syms, k)
  {
    SymbolBits(lens[sel[k / BZ_G_SIZE]], syms[k])
  }

  ghost predicate AllCodable(lens: seq<seq<nat>>, sel: seq<int>, syms: seq<nat>) {
    forall k :: 0 <= k < |syms| ==> Codable(lens, sel, syms, k)
  }

  /** The first k values as bits. */
  ghost function DataBits(lens: seq<seq<nat>>, sel: seq<int>, syms: seq<nat>, k: nat): seq<bool>
    requires AllCodable(lens, sel, syms) && k <= |syms|
  {
    if k == 0 then [] else DataBits(lens, sel, syms, k - 1) + ValueBits(lens, sel, syms, k - 1)
  }

  /** The values from k on as bits. */
  ghost function DataTail(lens: seq<seq<nat>>, sel: seq<int>, syms: seq<nat>, k: nat): seq<bool>
    requires AllCodable(lens, sel, syms) && k <= |syms|
    decreases |syms| - k
  {
    if k == |syms| then [] else ValueBits(lens, sel, syms, k) + DataTail(lens, sel, syms, k + 1)
  }

  lemma {:induction false} DataSplit(lens: seq<seq<nat>>, sel: seq<int>, syms: seq<nat>, k: nat)
    requires AllCodable(lens, sel, syms) && k <= |syms|
    ensures DataBits(lens, sel, syms, |syms|) == DataBits(lens, sel, syms, k) + DataTail(lens, sel, syms, k)
    decreases |syms| - k
  {
    hide Codable, ValueBits;
    if k < |syms| {
      DataSplit(lens, sel, syms, k + 1);
    }
  }

  /** Values are read until the end marker, fifty with each selector. */
  function ReadData(lens: seq<seq<nat>>, sel: seq<int>, eob: nat, k: nat, s: seq<bool>): Parsed<seq<nat>>
    decreases 50 * |sel| - k
  {
    if k / 50 >= |sel| || !(0 <= sel[k / 50] < |lens|) then Bad
    else
      match ReadSymbol(lens[sel[k / 50]], s, 1)
      case Bad => Bad
      case Parsed(sym, rest) =>
        if sym == eob then Parsed([sym], rest)
        else
          match ReadData(lens, sel, eob, k + 1, rest)
          case Bad => Bad
          case Parsed(syms, end) => Parsed([sym] + syms, end)
  }

  ghost predicate Ended(syms: seq<nat>, eob: nat) {
    syms != [] && syms[|syms| - 1] == eob && forall k :: 0 <= k < |syms| - 1 ==> syms[k] != eob
  }

  lemma {:induction false} DataReads(lens: seq<seq<nat>>, sel: seq<int>, syms: seq<nat>, eob: nat, k: nat,
      rest: seq<bool>)
    requires AllCodable(lens, sel, syms) && Ended(syms, eob) && k < |syms|
    ensures ReadData(lens, sel, eob, k, DataTail(lens, sel, syms, k) + rest) == Parsed(syms[k..], rest)
    decreases |syms| - k
  {
    hide Code, ReadSymbol, SymbolBits;
    assert Codable(lens, sel, syms, k);
    var table, more := lens[sel[k / BZ_G_SIZE]], DataTail(lens, sel, syms, k + 1) + rest;
    assert DataTail(lens, sel, syms, k) + rest == SymbolBits(table, syms[k]) + more;
    SymbolReads(table, syms[k], more, 1);
    if k + 1 < |syms| {
      DataReads(lens, sel, syms, eob, k + 1, rest);
      assert syms[k..] == [syms[k]] + syms[k + 1..];
    } else {
      assert syms[k..] == [syms[k]] && more == rest;
    }
  }

  // ----- the whole body ----------------------------------------------------

  ghost predicate WellCoded(c: Coded) {
    && c.origPtr < Pow2(24) && |c.inUse| == 256 && Rank(c.inUse, 256) > 0
    && 2 <= |c.lens| <= BZ_N_GROUPS && 1 <= |c.places| <= BZ_MAX_SELECTORS && Placed(c.places, |c.lens|)
    && Lengths(c.lens, Eob(c.inUse) + 1) && Ended(c.syms, Eob(c.inUse))
    && AllCodable(c.lens, Selectors(c.places, |c.lens|), c.syms)
  }

  ghost function CodingBits(places: seq<nat>, lens: seq<seq<nat>>, data: seq<bool>): seq<bool>
    requires forall t :: 0 <= t < |lens| ==> lens[t] != []
  {
    Low(|lens|, 3) + (Low(|places|, 15) + (Unaries(places) + (Tables(lens) + data)))
  }

  ghost function BodyBits(c: Coded): seq<bool>
    requires WellCoded(c)
  {
    var data := DataBits(c.lens, Selectors(c.places, |c.lens|), c.syms, |c.syms|);
    [false] + (Low(c.origPtr, 24) + (MapBits(c.inUse) + CodingBits(c.places, c.lens, data)))
  }

  function ReadValues(origPtr: nat, inUse: seq<bool>, places: seq<nat>, lens: seq<seq<nat>>,
      s: seq<bool>): Parsed<Coded>
    requires Placed(places, |lens|)
  {
    match ReadData(lens, Selectors(places, |lens|), Eob(inUse), 0, s)
    case Bad => Bad
    case Parsed(syms, rest) => Parsed(Coded(origPtr, inUse, places, lens, syms), rest)
  }

  function ReadCoding(origPtr: nat, inUse: seq<bool>, s: seq<bool>): Parsed<Coded> {
    match ReadLow(s, 3)
    case Bad => Bad
    case Parsed(nGroups, s) =>
      if nGroups < 2 || nGroups > 6 then Bad
      else
        match ReadLow(s, 15)
        case Bad => Bad
        case Parsed(nSelectors, s) =>
          if nSelectors < 1 then Bad
          else
            match ReadUnaries(s, nSelectors, nGroups)
            case Bad => Bad
            case Parsed(places, s) =>
              match ReadTables(s, nGroups, Eob(inUse) + 1)
              case Bad => Bad
              case Parsed(lens, s) => if Placed(places, |lens|) then ReadValues(origPtr, inUse, places, lens, s) else Bad
  }

  /** Blocks marked as randomised are not read here. */
  function ReadBody(s: seq<bool>): Parsed<Coded> {
    if s == [] || s[0] then Bad
    else
      match ReadLow(s[1..], 24)
      case Bad => Bad
      case Parsed(origPtr, s) =>
        match ReadMap(s)
        case Bad => Bad
        case Parsed(inUse, s) => if Rank(inUse, |inUse|) == 0 then Bad else ReadCoding(origPtr, inUse, s)
  }

  lemma PlacesRead(origPtr: nat, inUse: seq<bool>, nGroups: nat, places: seq<nat>, s: seq<bool>)
    requires 2 <= nGroups <= BZ_N_GROUPS && 1 <= |places| <= BZ_MAX_SELECTORS && Placed(places, nGroups)
    ensures ReadCoding(origPtr, inUse, Low(nGroups, 3) + (Low(|places|, 15) + (Unaries(places) + s))) ==
      match ReadTables(s, nGroups, Eob(inUse) + 1)
      case Bad => Bad
      case Parsed(lens, s) => if Placed(places, |lens|) then ReadValues(origPtr, inUse, places, lens, s) else Bad
  {
    hide Low, Unaries, ReadLow, ReadUnaries, ReadTables, ReadValues, Pow2;
    Widths();
    LowReads(nGroups, 3, Low(|places|, 15) + (Unaries(places) + s));
    LowReads(|places|, 15, Unaries(places) + s);
    UnariesRead(places, nGroups, s);
  }

  lemma Widths()
    ensures Pow2(3) == 8 && Pow2(15) == 32768
  {
  }

  lemma CodingReads(c: Coded, data: seq<bool>, rest: seq<bool>)
    requires WellCoded(c)
    ensures ReadCoding(c.origPtr, c.inUse, CodingBits(c.places, c.lens, data) + rest) ==
      ReadValues(c.origPtr, c.inUse, c.places, c.lens, data + rest)
  {
    hide Low, Unaries, Tables, ReadCoding, ReadTables, ReadValues, Selectors, AllCodable, Ended, Rank, Pow2;
    PlacesRead(c.origPtr, c.inUse, |c.lens|, c.places, Tables(c.lens) + (data + rest));
    TablesRead(c.lens, Eob(c.inUse) + 1, data + rest);
    Append4(Low(|c.lens|, 3), Low(|c.places|, 15), Unaries(c.places), Tables(c.lens) + data, rest);
    assert (Tables(c.lens) + data) + rest == Tables(c.lens) + (data + rest);
  }

  lemma FrontReads(origPtr: nat, inUse: seq<bool>, s: seq<bool>)
    requires origPtr < Pow2(24) && |inUse| == 256 && Rank(inUse, 256) > 0
    ensures ReadBody([false] + (Low(origPtr, 24) + (MapBits(inUse) + s))) == ReadCoding(origPtr, inUse, s)
  {
    hide Low, MapBits, ReadLow, ReadMap, ReadCoding;
    var s1 := Low(origPtr, 24) + (MapBits(inUse) + s);
    var s0 := [false] + s1;
    assert s0[1..] == s1;
    LowReads(origPtr, 24, MapBits(inUse) + s);
    MapReads(inUse, s);
  }

  lemma Append4(a: seq<bool>, b: seq<bool>, c: seq<bool>, d: seq<bool>, rest: seq<bool>)
    ensures (a + (b + (c + d))) + rest == a + (b + (c + (d + rest)))
  {
  }

  /** A body reads back as what was coded, and reading stops at its end. */
  lemma BodyReads(c: Coded, rest: seq<bool>)
    requires WellCoded(c)
    ensures ReadBody(BodyBits(c) + rest) == Parsed(c, rest)
  {
    hide Low, MapBits, ReadBody, ReadCoding, CodingBits, ReadValues, DataBits, Selectors, AllCodable, Ended, Rank;
    var data := DataBits(c.lens, Selectors(c.places, |c.lens|), c.syms, |c.syms|);
    var coding := CodingBits(c.places, c.lens, data);
    ValuesRead(c, data, rest);
    CodingReads(c, data, rest);
    FrontReads(c.origPtr, c.inUse, coding + rest);
    Append4([false], Low(c.origPtr, 24), MapBits(c.inUse), coding, rest);
  }

  lemma ValuesRead(c: Coded, data: seq<bool>, rest: seq<bool>)
    requires WellCoded(c) && data == DataBits(c.lens, Selectors(c.places, |c.lens|), c.syms, |c.syms|)
    ensures ReadValues(c.origPtr, c.inUse, c.places, c.lens, data + rest) == Parsed(c, rest)
  {
    var sel := Selectors(c.places, |c.lens|);
    hide Selectors, DataTail, ReadData;
    DataSplit(c.lens, sel, c.syms, 0);
    assert DataBits(c.lens, sel, c.syms, 0) == [];
    assert data == DataTail(c.lens, sel, c.syms, 0);
    DataReads(c.lens, sel, c.syms, Eob(c.inUse), 0, rest);
    assert c.syms[0..] == c.syms;
  }
}
