/** The bytes a block uses, numbered in order: both directions of the map. */
module UsedBytes {
  import opened Rotations

  /** How many used bytes are below c. */
  function Rank(inUse: seq<bool>, c: nat): (r: nat)
    requires c <= |inUse|
    ensures r <= c
  {
    if c == 0 then 0 else Rank(inUse, c - 1) + if inUse[c - 1] then 1 else 0
  }

  lemma {:induction false} RankMonotone(inUse: seq<bool>, c: nat, d: nat)
    requires c <= d <= |inUse|
    ensures Rank(inUse, c) <= Rank(inUse, d) && (c < d && inUse[c] ==> Rank(inUse, c) < Rank(inUse, d))
    decreases d
  {
    if c < d {
      RankMonotone(inUse, c, d - 1);
    }
  }

  /** makeMaps_d: the used bytes below c, in order. */
  function Listed(inUse: seq<bool>, c: nat): (s: seq<Byte>)
    requires c <= |inUse| <= 256
    ensures |s| == Rank(inUse, c)
  {
    if c == 0 then [] else Listed(inUse, c - 1) + if inUse[c - 1] then [(c - 1) as Byte] else []
  }

  /** The number of a used byte leads back to the byte. */
  lemma {:induction false} ListedRank(inUse: seq<bool>, c: nat, d: nat)
    requires c < d <= |inUse| <= 256 && inUse[c]
    ensures Rank(inUse, c) < Rank(inUse, d) && Listed(inUse, d)[Rank(inUse, c)] == c
  {
    RankMonotone(inUse, c, d);
    if c < d - 1 {
      ListedRank(inUse, c, d - 1);
    }
  }

  /** makeMaps_e */
  method MakeMaps(inUse: seq<bool>, unseqToSeq: array<int>) returns (nInUse: nat)
    requires |inUse| == 256 == unseqToSeq.Length
    modifies unseqToSeq
    ensures nInUse == Rank(inUse, 256)
    ensures forall c :: 0 <= c < 256 && inUse[c] ==> unseqToSeq[c] == Rank(inUse, c)
  {
    nInUse := 0;
    for i := 0 to 256
      invariant nInUse == Rank(inUse, i)
      invariant forall c :: 0 <= c < i && inUse[c] ==> unseqToSeq[c] == Rank(inUse, c)
    {
      if inUse[i] {
        unseqToSeq[i] := nInUse;
        nInUse := nInUse + 1;
      }
    }
  }
}
