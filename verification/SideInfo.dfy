/** The side information of a block as bits, with the decoder's way of reading
    it: every part reads back, and reading goes on right after it. */
module SideInfo {
  import opened Arithmetic
  import opened BitStream
  import opened MtfCoding

  /** What was read and what follows it, or an error. */
  datatype Parsed<T> = Parsed(value: T, rest: seq<bool>) | Bad

  function ReadLow(s: seq<bool>, n: nat): Parsed<nat> {
    if n <= |s| then Parsed(Number(s[..n]), s[n..]) else Bad
  }

  lemma LowReads(v: nat, n: nat, rest: seq<bool>)
    requires v < Pow2(n)
    ensures ReadLow(Low(v, n) + rest, n) == Parsed(v, rest)
  {
    ReadBack(v, n, rest);
  }

  // ----- the used-byte map -------------------------------------------------

  /** inUse16[i]: some byte of row i is used. */
  predicate RowUsed(inUse: seq<bool>, i: nat)
    requires |inUse| == 256 && i < 16
  {
    exists j :: 16 * i <= j < 16 * i + 16 && inUse[j]
  }

  function Rows(inUse: seq<bool>, i: nat): seq<bool>
    requires |inUse| == 256 && i <= 16
    decreases 16 - i
  {
    if i == 16 then [] else (if RowUsed(inUse, i) then inUse[16 * i..16 * i + 16] else []) + Rows(inUse, i + 1)
  }

  function RowMarks(inUse: seq<bool>): seq<bool>
    requires |inUse| == 256
  {
    seq(16, i requires 0 <= i < 16 => RowUsed(inUse, i))
  }

  function MapBits(inUse: seq<bool>): seq<bool>
    requires |inUse| == 256
  {
    RowMarks(inUse) + Rows(inUse, 0)
  }

  function ReadRows(marks: seq<bool>, s: seq<bool>): Parsed<seq<bool>>
    decreases |marks|
  {
    if marks == [] then Parsed([], s)
    else if !marks[0] then
      match ReadRows(marks[1..], s)
      case Parsed(v, rest) => Parsed(seq(16, i => false) + v, rest)
      case Bad => Bad
    else if |s| < 16 then Bad
    else
      match ReadRows(marks[1..], s[16..])
      case Parsed(v, rest) => Parsed(s[..16] + v, rest)
      case Bad => Bad
  }

  function ReadMap(s: seq<bool>): Parsed<seq<bool>> {
    if |s| < 16 then Bad else ReadRows(s[..16], s[16..])
  }

  lemma UsedRowReads(marks: seq<bool>, row: seq<bool>, s: seq<bool>, v: seq<bool>, rest: seq<bool>)
    requires |row| == 16 && ReadRows(marks, s) == Parsed(v, rest)
    ensures ReadRows([true] + marks, row + s) == Parsed(row + v, rest)
  {
    var all, bits := [true] + marks, row + s;
    assert all[1..] == marks && bits[16..] == s && bits[..16] == row;
  }

  lemma UnusedRowReads(marks: seq<bool>, s: seq<bool>, v: seq<bool>, rest: seq<bool>)
    requires ReadRows(marks, s) == Parsed(v, rest)
    ensures ReadRows([false] + marks, s) == Parsed(seq(16, i => false) + v, rest)
  {
    var all := [false] + marks;
    assert all[1..] == marks;
  }

  lemma {:induction false} RowsRead(inUse: seq<bool>, i: nat, rest: seq<bool>)
    requires |inUse| == 256 && i <= 16
    ensures ReadRows(RowMarks(inUse)[i..], Rows(inUse, i) + rest) == Parsed(inUse[16 * i..], rest)
    decreases 16 - i
  {
    hide ReadRows;
    if i == 16 {
      NoRows(rest);
      assert RowMarks(inUse)[16..] == [] && inUse[256..] == [] && [] + rest == rest;
    } else {
      RowsRead(inUse, i + 1, rest);
      RowStep(inUse, i, rest);
    }
  }

  lemma NoRows(s: seq<bool>)
    ensures ReadRows([], s) == Parsed([], s)
  {
  }

  lemma RowStep(inUse: seq<bool>, i: nat, rest: seq<bool>)
    requires |inUse| == 256 && i < 16
    requires ReadRows(RowMarks(inUse)[i + 1..], Rows(inUse, i + 1) + rest) == Parsed(inUse[16 * (i + 1)..], rest)
    ensures ReadRows(RowMarks(inUse)[i..], Rows(inUse, i) + rest) == Parsed(inUse[16 * i..], rest)
  {
    hide ReadRows;
    var marks := RowMarks(inUse);
    assert marks[i..] == [marks[i]] + marks[i + 1..];
    var row, more, v := inUse[16 * i..16 * i + 16], Rows(inUse, i + 1), inUse[16 * (i + 1)..];
    assert inUse[16 * i..] == row + v;
    if RowUsed(inUse, i) {
      assert Rows(inUse, i) + rest == row + (more + rest);
      UsedRowReads(marks[i + 1..], row, more + rest, v, rest);
    } else {
      assert Rows(inUse, i) == more;
      assert row == seq(16, j => false);
      UnusedRowReads(marks[i + 1..], more + rest, v, rest);
    }
  }

  lemma MapReads(inUse: seq<bool>, rest: seq<bool>)
    requires |inUse| == 256
    ensures ReadMap(MapBits(inUse) + rest) == Parsed(inUse, rest)
  {
    RowsRead(inUse, 0, rest);
    var s := MapBits(inUse) + rest;
    assert s[..16] == RowMarks(inUse) == RowMarks(inUse)[0..] && s[16..] == Rows(inUse, 0) + rest
      && inUse[0..] == inUse;
  }

  // ----- selectors: unary numbers ------------------------------------------

  function Unary(j: nat): seq<bool> {
    if j == 0 then [false] else [true] + Unary(j - 1)
  }

  function Unaries(js: seq<nat>): seq<bool> {
    if js == [] then [] else Unaries(js[..|js| - 1]) + Unary(js[|js| - 1])
  }

  /** A number below `limit`. */
  function ReadUnary(s: seq<bool>, limit: nat): Parsed<nat>
    decreases |s|
  {
    if s == [] then Bad
    else if !s[0] then Parsed(0, s[1..])
    else if limit <= 1 then Bad
    else
      match ReadUnary(s[1..], limit - 1)
      case Parsed(j, rest) => Parsed(j + 1, rest)
      case Bad => Bad
  }

  function ReadUnaries(s: seq<bool>, n: nat, limit: nat): Parsed<seq<nat>>
    decreases n
  {
    if n == 0 then Parsed([], s)
    else
      match ReadUnary(s, limit)
      case Bad => Bad
      case Parsed(j, rest) =>
        match ReadUnaries(rest, n - 1, limit)
        case Bad => Bad
        case Parsed(js, end) => Parsed([j] + js, end)
  }

  lemma {:induction false} UnaryReads(j: nat, limit: nat, rest: seq<bool>)
    requires j < limit
    ensures ReadUnary(Unary(j) + rest, limit) == Parsed(j, rest)
  {
    var s := Unary(j) + rest;
    if j == 0 {
      assert s[1..] == rest;
    } else {
      assert s[1..] == Unary(j - 1) + rest;
      UnaryReads(j - 1, limit - 1, rest);
    }
  }

  lemma {:induction false} UnariesFirst(j: nat, js: seq<nat>)
    ensures Unaries([j] + js) == Unary(j) + Unaries(js)
  {
    var all := [j] + js;
    if js == [] {
      assert all[..0] == [];
    } else {
      assert all[..|all| - 1] == [j] + js[..|js| - 1];
      UnariesFirst(j, js[..|js| - 1]);
    }
  }

  lemma {:induction false} UnariesRead(js: seq<nat>, limit: nat, rest: seq<bool>)
    requires forall i :: 0 <= i < |js| ==> js[i] < limit
    ensures ReadUnaries(Unaries(js) + rest, |js|, limit) == Parsed(js, rest)
  {
    if js == [] {
      assert Unaries(js) + rest == rest;
    } else {
      var j, more := js[0], js[1..];
      assert js == [j] + more;
      UnariesFirst(j, more);
      assert Unaries(js) + rest == Unary(j) + (Unaries(more) + rest);
      UnaryReads(j, limit, Unaries(more) + rest);
      UnariesRead(more, limit, rest);
    }
  }

  // ----- code lengths: steps up and down -----------------------------------

  function Delta(curr: nat, len: nat): seq<bool>
    decreases if curr < len then len - curr else curr - len
  {
    if curr < len then [true, false] + Delta(curr + 1, len)
    else if curr > len then [true, true] + Delta(curr - 1, len)
    else [false]
  }

  /** Each length as steps from the one before it. */
  function Deltas(curr: nat, lens: seq<nat>): seq<bool> {
    if lens == [] then []
    else
      var front := lens[..|lens| - 1];
      Deltas(curr, front) + Delta(if front == [] then curr else front[|front| - 1], lens[|lens| - 1])
  }

  function ReadDelta(s: seq<bool>, curr: int): Parsed<nat>
    decreases |s|
  {
    if curr < 1 || curr > 20 || s == [] then Bad
    else if !s[0] then Parsed(curr, s[1..])
    else if |s| < 2 then Bad
    else ReadDelta(s[2..], if s[1] then curr - 1 else curr + 1)
  }

  function ReadDeltas(s: seq<bool>, curr: nat, n: nat): Parsed<seq<nat>>
    decreases n
  {
    if n == 0 then Parsed([], s)
    else
      match ReadDelta(s, curr)
      case Bad => Bad
      case Parsed(len, rest) =>
        match ReadDeltas(rest, len, n - 1)
        case Bad => Bad
        case Parsed(lens, end) => Parsed([len] + lens, end)
  }

  lemma {:induction false} DeltaReads(curr: nat, len: nat, rest: seq<bool>)
    requires 1 <= curr <= 20 && 1 <= len <= 20
    ensures ReadDelta(Delta(curr, len) + rest, curr) == Parsed(len, rest)
    decreases if curr < len then len - curr else curr - len
  {
    var s := Delta(curr, len) + rest;
    if curr < len {
      assert s == [true, false] + (Delta(curr + 1, len) + rest);
      DeltaReads(curr + 1, len, rest);
    } else if curr > len {
      assert s == [true, true] + (Delta(curr - 1, len) + rest);
      DeltaReads(curr - 1, len, rest);
    } else {
      assert s[1..] == rest;
    }
  }

  lemma {:induction false} DeltasFirst(curr: nat, len: nat, lens: seq<nat>)
    ensures Deltas(curr, [len] + lens) == Delta(curr, len) + Deltas(len, lens)
  {
    var all := [len] + lens;
    if lens == [] {
      assert all[..0] == [];
    } else {
      var front := lens[..|lens| - 1];
      assert all[..|all| - 1] == [len] + front;
      DeltasFirst(curr, len, front);
    }
  }

  lemma {:induction false} DeltasRead(curr: nat, lens: seq<nat>, rest: seq<bool>)
    requires 1 <= curr <= 20 && forall i :: 0 <= i < |lens| ==> 1 <= lens[i] <= 20
    ensures ReadDeltas(Deltas(curr, lens) + rest, curr, |lens|) == Parsed(lens, rest)
    decreases |lens|
  {
    if lens == [] {
      assert Deltas(curr, lens) + rest == rest;
    } else {
      var len, more := lens[0], lens[1..];
      assert lens == [len] + more;
      DeltasFirst(curr, len, more);
      assert Deltas(curr, lens) + rest == Delta(curr, len) + (Deltas(len, more) + rest);
      DeltaReads(curr, len, Deltas(len, more) + rest);
      DeltasRead(len, more, rest);
    }
  }

  /** One coding table: its first length in five bits, then the steps. */
  function TableBits(lens: seq<nat>): seq<bool>
    requires lens != []
  {
    Low(lens[0], 5) + Deltas(lens[0], lens)
  }

  function ReadTable(s: seq<bool>, alphaSize: nat): Parsed<seq<nat>> {
    match ReadLow(s, 5)
    case Bad => Bad
    case Parsed(curr, rest) => ReadDeltas(rest, curr, alphaSize)
  }

  lemma TableReads(lens: seq<nat>, rest: seq<bool>)
    requires lens != [] && forall i :: 0 <= i < |lens| ==> 1 <= lens[i] <= 20
    ensures ReadTable(TableBits(lens) + rest, |lens|) == Parsed(lens, rest)
  {
    var more := Deltas(lens[0], lens) + rest;
    assert TableBits(lens) + rest == Low(lens[0], 5) + more;
    LowReads(lens[0], 5, more);
    DeltasRead(lens[0], lens, rest);
  }

  function Tables(lens: seq<seq<nat>>): seq<bool>
    requires forall t :: 0 <= t < |lens| ==> lens[t] != []
  {
    if lens == [] then [] else Tables(lens[..|lens| - 1]) + TableBits(lens[|lens| - 1])
  }

  function ReadTables(s: seq<bool>, n: nat, alphaSize: nat): Parsed<seq<seq<nat>>>
    decreases n
  {
    if n == 0 then Parsed([], s)
    else
      match ReadTable(s, alphaSize)
      case Bad => Bad
      case Parsed(lens, rest) =>
        match ReadTables(rest, n - 1, alphaSize)
        case Bad => Bad
        case Parsed(more, end) => Parsed([lens] + more, end)
  }

  /** Lengths the decoder accepts, for every symbol of every table. */
  predicate Lengths(lens: seq<seq<nat>>, alphaSize: nat) {
    alphaSize > 0 && forall t :: 0 <= t < |lens| ==> |lens[t]| == alphaSize && forall i :: 0 <= i < alphaSize ==> 1 <= lens[t][i] <= 20
  }

  lemma {:induction false} TablesFirst(first: seq<nat>, lens: seq<seq<nat>>, alphaSize: nat)
    requires first != [] && Lengths([first] + lens, alphaSize) && Lengths(lens, alphaSize)
    ensures Tables([first] + lens) == TableBits(first) + Tables(lens)
  {
    var all := [first] + lens;
    assert first == all[0];
    if lens == [] {
      assert all[..0] == [];
    } else {
      assert all[..|all| - 1] == [first] + lens[..|lens| - 1];
      TablesFirst(first, lens[..|lens| - 1], alphaSize);
    }
  }

  lemma {:induction false} TablesRead(lens: seq<seq<nat>>, alphaSize: nat, rest: seq<bool>)
    requires Lengths(lens, alphaSize)
    ensures ReadTables(Tables(lens) + rest, |lens|, alphaSize) == Parsed(lens, rest)
  {
    hide TableBits, ReadTable;
    if lens == [] {
      assert Tables(lens) + rest == rest;
    } else {
      var first, more := lens[0], lens[1..];
      assert lens == [first] + more;
      TablesFirst(first, more, alphaSize);
      assert Tables(lens) + rest == TableBits(first) + (Tables(more) + rest);
      TableReads(first, Tables(more) + rest);
      TablesRead(more, alphaSize, rest);
    }
  }

  // ----- undoing the move-to-front of the selectors ------------------------

  /** The selectors that places js in a list starting as pos stand for. */
  function Selected(pos: seq<int>, js: seq<nat>): seq<int>
    requires forall i :: 0 <= i < |js| ==> js[i] < |pos|
    decreases |js|
  {
    if js == [] then [] else [pos[js[0]]] + Selected(ToFront(pos, js[0]), js[1..])
  }
}
