/** Iterating a function, folding over a sequence, and what linearity of one
    step says about many. */
module Iteration {
  function Iter<W>(f: W -> W, n: nat, x: W): W {
    if n == 0 then x else Iter(f, n - 1, f(x))
  }

  lemma {:induction false} IterAdd<W>(f: W -> W, m: nat, n: nat, x: W)
    ensures Iter(f, m + n, x) == Iter(f, n, Iter(f, m, x))
  {
    if m != 0 {
      IterAdd(f, m - 1, n, f(x));
    }
  }

  ghost predicate Linear<W(!new)>(f: W -> W, add: (W, W) -> W) {
    forall a, b :: f(add(a, b)) == add(f(a), f(b))
  }

  lemma {:induction false} IterLinear<W(!new)>(f: W -> W, add: (W, W) -> W, n: nat, a: W, b: W)
    requires Linear(f, add)
    ensures Iter(f, n, add(a, b)) == add(Iter(f, n, a), Iter(f, n, b))
  {
    if n != 0 {
      IterLinear(f, add, n - 1, f(a), f(b));
    }
  }

  lemma {:induction false} IterFixpoint<W>(f: W -> W, n: nat, x: W)
    requires f(x) == x
    ensures Iter(f, n, x) == x
  {
    if n != 0 {
      IterFixpoint(f, n - 1, x);
    }
  }

  function Fold<W, B>(f: (W, B) -> W, w: W, s: seq<B>): W
    decreases |s|
  {
    if s == [] then w else Fold(f, f(w, s[0]), s[1..])
  }

  lemma {:induction false} FoldConcat<W, B>(f: (W, B) -> W, w: W, s: seq<B>, t: seq<B>)
    ensures Fold(f, w, s + t) == Fold(f, Fold(f, w, s), t)
    decreases |s|
  {
    if s == [] {
      assert s + t == t;
    } else {
      assert (s + t)[1..] == s[1..] + t;
      FoldConcat(f, f(w, s[0]), s[1..], t);
    }
  }

  lemma FoldAppend<W, B>(f: (W, B) -> W, w: W, s: seq<B>, b: B)
    ensures Fold(f, w, s + [b]) == f(Fold(f, w, s), b)
  {
    FoldConcat(f, w, s, [b]);
    assert [b][1..] == [];
  }

  lemma FoldFour<W, B>(f: (W, B) -> W, w: W, b0: B, b1: B, b2: B, b3: B)
    ensures Fold(f, w, [b0, b1, b2, b3]) == f(f(f(f(w, b0), b1), b2), b3)
  {
    FoldAppend(f, w, [b0, b1, b2], b3);
    FoldAppend(f, w, [b0, b1], b2);
    FoldAppend(f, w, [b0], b1);
    FoldAppend(f, w, [], b0);
    assert [b0, b1, b2, b3] == [b0, b1, b2] + [b3];
    assert [b0, b1, b2] == [b0, b1] + [b2];
    assert [b0, b1] == [b0] + [b1];
    assert [b0] == [] + [b0];
  }
}
