/** The initial run-length coding: what a block means, and how runs are written
    so that the meaning is exactly the runs. */
module Rle {
  import opened Rotations

  function Repeat(c: Byte, n: nat): (s: seq<Byte>)
    ensures |s| == n && forall i :: 0 <= i < n ==> s[i] == c
  {
    seq(n, i => c)
  }

  // ----- reading a block ---------------------------------------------------

  /** Bytes p..p+k of the block exist and are all equal. */
  predicate Equal(b: seq<Byte>, p: nat, k: nat) {
    p + k < |b| && forall i :: p < i <= p + k ==> b[i] == b[p]
  }

  /** How many bytes the run starting at p stands for. The count byte is read
      even past the end of the block, where the walk starts over. */
  function RunLength(b: seq<Byte>, p: nat): nat
    requires p < |b|
  {
    if !Equal(b, p, 1) then 1 else if !Equal(b, p, 2) then 2 else if !Equal(b, p, 3) then 3 else 4 + At(b, p + 4)
  }

  /** Where the next run starts. */
  function RunEnd(b: seq<Byte>, p: nat): (e: nat)
    requires p < |b|
    ensures p < e <= |b| + 1
  {
    if !Equal(b, p, 1) then p + 1 else if !Equal(b, p, 2) then p + 2 else if !Equal(b, p, 3) then p + 3 else p + 5
  }

  /** The bytes the block stands for, from position p on. */
  function UnRle(b: seq<Byte>, p: nat): seq<Byte>
    decreases |b| - p
  {
    if p >= |b| then [] else Repeat(b[p], RunLength(b, p)) + UnRle(b, RunEnd(b, p))
  }

  /** The block breaks off where a count byte should be. */
  predicate Corrupt(b: seq<Byte>, p: nat)
    decreases |b| - p
  {
    if p >= |b| then p > |b| else Corrupt(b, RunEnd(b, p))
  }

  // ----- writing runs ------------------------------------------------------

  datatype Pair = Pair(ch: Byte, len: nat)

  /** A run as add_pair_to_block writes it. */
  function Written(p: Pair): seq<Byte>
    requires 0 < p.len < 256
  {
    if p.len < 4 then Repeat(p.ch, p.len) else [p.ch, p.ch, p.ch, p.ch, p.len - 4]
  }

  ghost predicate Runs(ps: seq<Pair>) {
    && (forall i :: 0 <= i < |ps| ==> 0 < ps[i].len < 256)
    && (forall i, j :: 0 <= i && j == i + 1 < |ps| ==> ps[i].ch != ps[j].ch || ps[i].len == 255)
  }

  function WrittenAll(ps: seq<Pair>): seq<Byte>
    requires forall i :: 0 <= i < |ps| ==> 0 < ps[i].len < 256
  {
    if ps == [] then [] else Written(ps[0]) + WrittenAll(ps[1..])
  }

  function Expand(ps: seq<Pair>): seq<Byte> {
    if ps == [] then [] else Repeat(ps[0].ch, ps[0].len) + Expand(ps[1..])
  }

  lemma {:induction false} ExpandMore(ps: seq<Pair>, p: Pair)
    ensures Expand(ps + [p]) == Expand(ps) + Repeat(p.ch, p.len)
  {
    if ps == [] {
      assert ps + [p] == [p] && [p][1..] == [];
    } else {
      assert (ps + [p])[1..] == ps[1..] + [p];
      ExpandMore(ps[1..], p);
    }
  }

  lemma {:induction false} WrittenMore(ps: seq<Pair>, p: Pair)
    requires (forall i :: 0 <= i < |ps| ==> 0 < ps[i].len < 256) && 0 < p.len < 256
    ensures WrittenAll(ps + [p]) == WrittenAll(ps) + Written(p)
  {
    if ps == [] {
      assert ps + [p] == [p] && [p][1..] == [];
    } else {
      assert (ps + [p])[1..] == ps[1..] + [p];
      WrittenMore(ps[1..], p);
    }
  }

  /** The first run of a block is read as it was written, and reading goes on
      right after it. */
  lemma FirstRun(p: Pair, rest: seq<Byte>)
    requires 0 < p.len < 256 && (p.len < 4 ==> rest == [] || rest[0] != p.ch)
    ensures var b := Written(p) + rest;
      b[0] == p.ch && RunLength(b, 0) == p.len && RunEnd(b, 0) == |Written(p)|
  {
    var b := Written(p) + rest;
    if p.len < 4 && rest != [] {
      assert b[p.len] == rest[0];
    }
    if p.len == 1 {
      assert !Equal(b, 0, 1);
    } else if p.len == 2 {
      assert Equal(b, 0, 1) && !Equal(b, 0, 2);
    } else if p.len == 3 {
      assert Equal(b, 0, 2) && !Equal(b, 0, 3);
    } else {
      assert Equal(b, 0, 3) && At(b, 4) == b[4];
    }
  }

  /** Reading from position p is reading the rest of the block, as long as it
      does not break off. */
  lemma {:induction false} ReadRest(b: seq<Byte>, k: nat, p: nat)
    requires k <= |b| && !Corrupt(b[k..], p)
    ensures UnRle(b, k + p) == UnRle(b[k..], p) && !Corrupt(b, k + p)
    decreases |b| - p
  {
    var s := b[k..];
    if p < |s| {
      assert s[p] == b[k + p];
      SameRun(b, k, p);
      ReadRest(b, k, RunEnd(s, p));
    }
  }

  lemma SameRun(b: seq<Byte>, k: nat, p: nat)
    requires k <= |b| && p < |b[k..]| && !Corrupt(b[k..], p)
    ensures RunLength(b, k + p) == RunLength(b[k..], p) && RunEnd(b, k + p) == k + RunEnd(b[k..], p)
  {
    var s := b[k..];
    forall j | 1 <= j <= 3 ensures Equal(b, k + p, j) == Equal(s, p, j) {
      if Equal(s, p, j) {
        forall i | k + p < i <= k + p + j ensures b[i] == b[k + p] {
          assert b[i] == s[i - k];
        }
      }
      if Equal(b, k + p, j) {
        forall i | p < i <= p + j ensures s[i] == s[p] {
          assert s[i] == b[k + i];
        }
      }
    }
    if Equal(s, p, 3) {
      assert RunEnd(s, p) == p + 5;
      assert p + 4 < |s|;
      assert s[p + 4] == b[k + p + 4];
    }
  }

  /** Round trip: a block written as runs stands for exactly those runs. */
  lemma {:induction false} RoundTrip(ps: seq<Pair>)
    requires Runs(ps)
    ensures UnRle(WrittenAll(ps), 0) == Expand(ps) && !Corrupt(WrittenAll(ps), 0)
  {
    if ps != [] {
      var p, tail := ps[0], ps[1..];
      var rest := WrittenAll(tail);
      var b := Written(p) + rest;
      assert Runs(tail) by {
        forall i, j | 0 <= i && j == i + 1 < |tail| ensures tail[i].ch != tail[j].ch || tail[i].len == 255 {
          assert ps[i + 1] == tail[i] && ps[j + 1] == tail[j];
        }
      }
      RoundTrip(tail);
      if tail != [] {
        assert ps[0].ch != ps[1].ch || ps[0].len == 255;
        assert rest[0] == tail[0].ch;
      }
      FirstRun(p, rest);
      assert b[|Written(p)|..] == rest;
      ReadRest(b, |Written(p)|, 0);
    }
  }
}
