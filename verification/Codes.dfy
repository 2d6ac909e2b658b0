/** The canonical codes of a table of lengths: when they fit, why none is the
    beginning of another, and how the decoder finds the symbol. */
module Codes {
  import opened Arithmetic
  import opened BitStream
  import opened SideInfo

  const BZ_MAX_LEN := 20

  /** How many of the first i symbols have length n. */
  function CountLen(lens: seq<nat>, n: nat, i: nat): nat
    requires i <= |lens|
  {
    if i == 0 then 0 else CountLen(lens, n, i - 1) + if lens[i - 1] == n then 1 else 0
  }

  function Level(lens: seq<nat>, n: nat): nat {
    CountLen(lens, n, |lens|)
  }

  /** The first code of length n. */
  function First(lens: seq<nat>, n: nat): nat {
    if n == 0 then 0 else 2 * (First(lens, n - 1) + Level(lens, n - 1))
  }

  /** The code BZ2_hbAssignCodes gives symbol i. */
  function Code(lens: seq<nat>, i: nat): nat
    requires i < |lens|
  {
    First(lens, lens[i]) + CountLen(lens, lens[i], i)
  }

  lemma {:induction false} CountLenMonotone(lens: seq<nat>, n: nat, i: nat, j: nat)
    requires i <= j <= |lens|
    ensures CountLen(lens, n, i) <= CountLen(lens, n, j)
    ensures i < j && lens[i] == n ==> CountLen(lens, n, i) < CountLen(lens, n, j)
    decreases j
  {
    if i < j {
      CountLenMonotone(lens, n, i, j - 1);
    }
  }

  lemma CodeRange(lens: seq<nat>, i: nat)
    requires i < |lens|
    ensures First(lens, lens[i]) <= Code(lens, i) < First(lens, lens[i]) + Level(lens, lens[i])
  {
    CountLenMonotone(lens, lens[i], i, |lens|);
  }

  /** Codes of a greater length start beyond all shorter ones. */
  lemma {:induction false} FirstBeyond(lens: seq<nat>, n: nat, m: nat)
    requires n < m
    ensures First(lens, m) >= Pow2(m - n) * (First(lens, n) + Level(lens, n))
  {
    if n < m - 1 {
      FirstBeyond(lens, n, m - 1);
      MulAssoc(2, Pow2(m - 1 - n), First(lens, n) + Level(lens, n));
    }
  }

  /** No code is the beginning of another. */
  lemma PrefixFree(lens: seq<nat>, i: nat, j: nat)
    requires i < |lens| && j < |lens| && i != j && lens[i] <= lens[j]
    ensures Code(lens, j) / Pow2(lens[j] - lens[i]) != Code(lens, i)
  {
    if lens[i] == lens[j] {
      CountLenMonotone(lens, lens[i], if i < j then i else j, if i < j then j else i);
    } else {
      Beyond(lens, j, lens[i]);
      CodeRange(lens, i);
    }
  }

  /** The first n bits of a longer code are beyond all codes of length n. */
  lemma Beyond(lens: seq<nat>, j: nat, n: nat)
    requires j < |lens| && n < lens[j]
    ensures Code(lens, j) / Pow2(lens[j] - n) >= First(lens, n) + Level(lens, n)
  {
    FirstBeyond(lens, n, lens[j]);
    CodeRange(lens, j);
    DivAtLeast(Code(lens, j), First(lens, n) + Level(lens, n), Pow2(lens[j] - n));
  }

  // ----- when the codes fit ------------------------------------------------

  /** The sum of 2^(limit - length) over the first i symbols. */
  function KraftSum(lens: seq<nat>, limit: nat, i: nat): nat
    requires i <= |lens| && forall k :: 0 <= k < |lens| ==> lens[k] <= limit
  {
    if i == 0 then 0 else KraftSum(lens, limit, i - 1) + Pow2(limit - lens[i - 1])
  }

  /** The Kraft inequality. */
  predicate Kraft(lens: seq<nat>) {
    (forall k :: 0 <= k < |lens| ==> lens[k] <= BZ_MAX_LEN) && KraftSum(lens, BZ_MAX_LEN, |lens|) <= Pow2(BZ_MAX_LEN)
  }

  /** The part of the sum from lengths below n. */
  function Below(lens: seq<nat>, limit: nat, n: nat, i: nat): nat
    requires i <= |lens| && forall k :: 0 <= k < |lens| ==> lens[k] <= limit
  {
    if i == 0 then 0 else Below(lens, limit, n, i - 1) + if lens[i - 1] < n then Pow2(limit - lens[i - 1]) else 0
  }

  lemma {:induction false} BelowNext(lens: seq<nat>, limit: nat, n: nat, i: nat)
    requires i <= |lens| && n <= limit && forall k :: 0 <= k < |lens| ==> lens[k] <= limit
    ensures Below(lens, limit, n + 1, i) == Below(lens, limit, n, i) + Pow2(limit - n) * CountLen(lens, n, i)
  {
    hide Pow2;
    if i > 0 {
      BelowNext(lens, limit, n, i - 1);
      OneMore(Pow2(limit - n), CountLen(lens, n, i - 1));
    }
  }

  lemma OneMore(p: nat, c: nat)
    ensures p * (c + 1) == p * c + p && p * 0 == 0
  {
  }

  lemma Doubled(p: nat, f: nat, c: nat)
    ensures p * (2 * (f + c)) == (2 * p) * f + (2 * p) * c
  {
  }

  lemma {:induction false} BelowAll(lens: seq<nat>, limit: nat, i: nat)
    requires i <= |lens| && forall k :: 0 <= k < |lens| ==> lens[k] <= limit
    ensures Below(lens, limit, limit + 1, i) == KraftSum(lens, limit, i)
  {
    if i > 0 {
      BelowAll(lens, limit, i - 1);
    }
  }

  lemma {:induction false} BelowNone(lens: seq<nat>, limit: nat, i: nat)
    requires i <= |lens| && forall k :: 0 <= k < |lens| ==> lens[k] <= limit
    ensures Below(lens, limit, 0, i) == 0
  {
    if i > 0 {
      BelowNone(lens, limit, i - 1);
    }
  }

  /** The first code of length n is the share of the shorter ones. */
  lemma {:induction false} FirstIsBelow(lens: seq<nat>, limit: nat, n: nat)
    requires n <= limit && forall k :: 0 <= k < |lens| ==> lens[k] <= limit
    ensures Pow2(limit - n) * First(lens, n) == Below(lens, limit, n, |lens|)
  {
    if n == 0 {
      BelowNone(lens, limit, |lens|);
    } else {
      FirstIsBelow(lens, limit, n - 1);
      BelowNext(lens, limit, n - 1, |lens|);
      assert Pow2(limit - n + 1) == 2 * Pow2(limit - n);
      hide Pow2;
      Doubled(Pow2(limit - n), First(lens, n - 1), Level(lens, n - 1));
    }
  }

  predicate Fit(lens: seq<nat>) {
    forall i :: 0 <= i < |lens| ==> Code(lens, i) < Pow2(lens[i])
  }

  /** The symbol of length n that r others of that length precede. */
  function Symbol(lens: seq<nat>, n: nat, r: nat): (i: nat)
    requires r < Level(lens, n)
    ensures i < |lens| && lens[i] == n && CountLen(lens, n, i) == r
  {
    SymbolFrom(lens, n, r, |lens|)
  }

  function SymbolFrom(lens: seq<nat>, n: nat, r: nat, k: nat): (i: nat)
    requires k <= |lens| && r < CountLen(lens, n, k)
    ensures i < k && lens[i] == n && CountLen(lens, n, i) == r
  {
    if lens[k - 1] == n && CountLen(lens, n, k - 1) == r then k - 1 else SymbolFrom(lens, n, r, k - 1)
  }

  lemma LevelShare(lens: seq<nat>, limit: nat, n: nat)
    requires n <= limit && forall k :: 0 <= k < |lens| ==> lens[k] <= limit
    ensures Pow2(limit - n) * (First(lens, n) + Level(lens, n)) == Below(lens, limit, n + 1, |lens|)
  {
    FirstIsBelow(lens, limit, n);
    BelowNext(lens, limit, n, |lens|);
    Distribute(Pow2(limit - n), First(lens, n), Level(lens, n));
  }

  lemma Distribute(p: nat, a: nat, b: nat)
    ensures p * (a + b) == p * a + p * b
  {
  }

  lemma {:induction false} BelowBound(lens: seq<nat>, limit: nat, n: nat, i: nat)
    requires i <= |lens| && forall k :: 0 <= k < |lens| ==> lens[k] <= limit
    ensures Below(lens, limit, n, i) <= KraftSum(lens, limit, i)
    ensures (forall k :: 0 <= k < |lens| ==> lens[k] < n) ==> Below(lens, limit, n, i) == KraftSum(lens, limit, i)
  {
    if i > 0 {
      BelowBound(lens, limit, n, i - 1);
    }
  }

  lemma Cancel(p: nat, a: nat, b: nat)
    requires p > 0
    ensures p * a <= p * b <==> a <= b
  {
    if a <= b {
      MulMonotone(p, a, b);
    } else {
      MulMonotone(p, b + 1, a);
    }
  }

  lemma LevelFits(lens: seq<nat>, n: nat)
    requires n <= BZ_MAX_LEN && forall k :: 0 <= k < |lens| ==> lens[k] <= BZ_MAX_LEN
    ensures First(lens, n) + Level(lens, n) <= Pow2(n) <==> Below(lens, BZ_MAX_LEN, n + 1, |lens|) <= Pow2(BZ_MAX_LEN)
  {
    hide *;
    LevelShare(lens, BZ_MAX_LEN, n);
    Pow2Add(BZ_MAX_LEN - n, n);
    Cancel(Pow2(BZ_MAX_LEN - n), First(lens, n) + Level(lens, n), Pow2(n));
  }

  /** The codes fit their lengths exactly when the Kraft inequality holds. */
  lemma FitIffKraft(lens: seq<nat>)
    requires forall k :: 0 <= k < |lens| ==> lens[k] <= BZ_MAX_LEN
    ensures Fit(lens) <==> Kraft(lens)
  {
    hide Below, First, KraftSum, Pow2, CountLen;
    if Kraft(lens) {
      forall i | 0 <= i < |lens| ensures Code(lens, i) < Pow2(lens[i]) {
        BelowBound(lens, BZ_MAX_LEN, lens[i] + 1, |lens|);
        LevelFits(lens, lens[i]);
        CodeRange(lens, i);
      }
    }
    if Fit(lens) {
      FitKraft(lens);
    }
  }

  lemma FitKraft(lens: seq<nat>)
    requires (forall k :: 0 <= k < |lens| ==> lens[k] <= BZ_MAX_LEN) && Fit(lens)
    ensures Kraft(lens)
  {
    hide Below, First, Pow2, Fit;
    if lens == [] {
      assert KraftSum(lens, BZ_MAX_LEN, 0) == 0;
    } else {
      var m := Longest(lens, |lens|);
      var n := lens[m];
      CountLenMonotone(lens, n, m, |lens|);
      var i := Symbol(lens, n, Level(lens, n) - 1);
      LastFits(lens, i);
      LevelFits(lens, n);
      BelowBound(lens, BZ_MAX_LEN, n + 1, |lens|);
    }
  }

  lemma LastFits(lens: seq<nat>, i: nat)
    requires Fit(lens) && i < |lens| && CountLen(lens, lens[i], i) == Level(lens, lens[i]) - 1
    ensures First(lens, lens[i]) + Level(lens, lens[i]) <= Pow2(lens[i])
  {
    assert Code(lens, i) < Pow2(lens[i]);
  }

  function Longest(lens: seq<nat>, k: nat): (m: nat)
    requires 0 < k <= |lens|
    ensures m < k && forall i :: 0 <= i < k ==> lens[i] <= lens[m]
  {
    if k == 1 then 0 else var m := Longest(lens, k - 1); if lens[k - 1] > lens[m] then k - 1 else m
  }

  // ----- assigning and reading codes ---------------------------------------

  lemma {:induction false} NoneShorter(lens: seq<nat>, n: nat, m: nat)
    requires n <= m && forall k :: 0 <= k < |lens| ==> lens[k] >= m
    ensures First(lens, n) == 0
  {
    if n > 0 {
      NoneShorter(lens, n - 1, m);
      NoneOfLength(lens, n - 1, |lens|);
    }
  }

  lemma {:induction false} NoneOfLength(lens: seq<nat>, n: nat, i: nat)
    requires i <= |lens| && forall k :: 0 <= k < |lens| ==> lens[k] != n
    ensures CountLen(lens, n, i) == 0
  {
    if i > 0 {
      NoneOfLength(lens, n, i - 1);
    }
  }

  /** BZ2_hbAssignCodes */
  method AssignCodes(code: array<nat>, lens: seq<nat>, minLen: nat, maxLen: nat)
    requires code.Length >= |lens| && minLen <= maxLen && forall k :: 0 <= k < |lens| ==> minLen <= lens[k] <= maxLen
    modifies code
    ensures forall i :: 0 <= i < |lens| ==> code[i] == Code(lens, i)
  {
    NoneShorter(lens, minLen, minLen);
    var vec := 0;
    for n := minLen to maxLen + 1
      invariant vec == First(lens, n)
      invariant forall k :: 0 <= k < |lens| && lens[k] < n ==> code[k] == Code(lens, k)
    {
      for i := 0 to |lens|
        invariant vec == First(lens, n) + CountLen(lens, n, i)
        invariant forall k :: 0 <= k < |lens| && lens[k] < n ==> code[k] == Code(lens, k)
        invariant forall k :: 0 <= k < i && lens[k] == n ==> code[k] == Code(lens, k)
      {
        if lens[i] == n {
          code[i] := vec;
          vec := vec + 1;
        }
      }
      vec := 2 * vec;
    }
  }

  /** How the decoder reads a symbol: bit by bit, until the number read is at
      most the last code of that length. */
  function ReadSymbol(lens: seq<nat>, s: seq<bool>, n: nat): Parsed<nat>
    decreases BZ_MAX_LEN + 1 - n
  {
    if n > BZ_MAX_LEN || n > |s| then Bad
    else
      var v := Number(s[..n]);
      if v >= First(lens, n) + Level(lens, n) then ReadSymbol(lens, s, n + 1)
      else if v < First(lens, n) then Bad
      else Parsed(Symbol(lens, n, v - First(lens, n)), s[n..])
  }

  /** The first n bits of an m-bit number are its quotient by 2^(m-n). */
  lemma {:induction false} LowPrefix(v: nat, m: nat, n: nat)
    requires n <= m && v < Pow2(m)
    ensures var q := Number(Low(v, m)[..n]); q * Pow2(m - n) <= v < (q + 1) * Pow2(m - n)
    decreases m - n
  {
    if n == m {
      assert Low(v, m)[..n] == Low(v, m);
      LowNumber(v, m);
    } else {
      LowStep(v, m);
      LowPrefix(v / 2, m - 1, n);
      assert Low(v, m)[..n] == Low(v, m)[..m - 1][..n];
      Doubles(Number(Low(v, m)[..n]), Pow2(m - 1 - n), v);
    }
  }

  lemma Doubles(q: nat, p: nat, v: nat)
    requires q * p <= v / 2 < (q + 1) * p
    ensures q * (2 * p) <= v < (q + 1) * (2 * p)
  {
    assert q * (2 * p) == 2 * (q * p) && (q + 1) * (2 * p) == 2 * ((q + 1) * p);
  }

  /** Numbers beyond x * p have quotients beyond x. */
  lemma QuotientBeyond(v: nat, x: nat, q: nat, p: nat)
    requires v >= p * x && v < (q + 1) * p
    ensures q >= x
  {
    if q < x {
      MulMonotone(p, q + 1, x);
    }
  }

  function SymbolBits(lens: seq<nat>, i: nat): seq<bool>
    requires i < |lens|
  {
    Low(Code(lens, i), lens[i])
  }

  /** Before its full length, a code reads as a number beyond all codes. */
  lemma TooShort(lens: seq<nat>, i: nat, rest: seq<bool>, n: nat)
    requires i < |lens| && Code(lens, i) < Pow2(lens[i]) && n < lens[i]
    ensures n <= |SymbolBits(lens, i) + rest|
      && Number((SymbolBits(lens, i) + rest)[..n]) >= First(lens, n) + Level(lens, n)
  {
    var c, m := Code(lens, i), lens[i];
    FirstBeyond(lens, n, m);
    CodeRange(lens, i);
    hide Code, Pow2, First, Level;
    var s := SymbolBits(lens, i) + rest;
    assert s[..n] == Low(c, m)[..n];
    LowPrefix(c, m, n);
    QuotientBeyond(c, First(lens, n) + Level(lens, n), Number(s[..n]), Pow2(m - n));
  }

  lemma FullCode(lens: seq<nat>, i: nat, rest: seq<bool>)
    requires i < |lens| && Code(lens, i) < Pow2(lens[i])
    ensures var s := SymbolBits(lens, i) + rest;
      lens[i] <= |s| && Number(s[..lens[i]]) == Code(lens, i) && s[lens[i]..] == rest
  {
    hide Code, Pow2;
    var s := SymbolBits(lens, i) + rest;
    assert s[..lens[i]] == Low(Code(lens, i), lens[i]);
    LowNumber(Code(lens, i), lens[i]);
  }

  lemma CodeSymbol(lens: seq<nat>, i: nat)
    requires i < |lens|
    ensures First(lens, lens[i]) <= Code(lens, i) < First(lens, lens[i]) + Level(lens, lens[i])
    ensures Symbol(lens, lens[i], Code(lens, i) - First(lens, lens[i])) == i
  {
    CodeRange(lens, i);
    hide First;
    SameSymbol(lens, lens[i], i, Symbol(lens, lens[i], Code(lens, i) - First(lens, lens[i])));
  }

  /** A symbol's code reads back as the symbol, whatever follows. */
  lemma {:induction false} SymbolReads(lens: seq<nat>, i: nat, rest: seq<bool>, n: nat)
    requires i < |lens| && Code(lens, i) < Pow2(lens[i]) && n <= lens[i] <= BZ_MAX_LEN
    ensures ReadSymbol(lens, SymbolBits(lens, i) + rest, n) == Parsed(i, rest)
    decreases lens[i] - n
  {
    hide Code, Pow2, First, Level, SymbolBits, Symbol, Number;
    if n < lens[i] {
      TooShort(lens, i, rest, n);
      SymbolReads(lens, i, rest, n + 1);
    } else {
      FullCode(lens, i, rest);
      CodeSymbol(lens, i);
    }
  }

  lemma SameSymbol(lens: seq<nat>, n: nat, i: nat, j: nat)
    requires i < |lens| && j < |lens| && lens[i] == n == lens[j] && CountLen(lens, n, i) == CountLen(lens, n, j)
    ensures i == j
  {
    if i < j {
      CountLenMonotone(lens, n, i, j);
    } else if j < i {
      CountLenMonotone(lens, n, j, i);
    }
  }
}
