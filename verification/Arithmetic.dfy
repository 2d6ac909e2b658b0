/** Powers of two and the binary value of a bit sequence. */
module Arithmetic {
  function Pow2(n: nat): (p: nat)
    ensures p >= 1
  {
    if n == 0 then 1 else 2 * Pow2(n - 1)
  }

  lemma {:induction false} Pow2Add(m: nat, n: nat)
    ensures Pow2(m + n) == Pow2(m) * Pow2(n)
  {
    if m != 0 {
      Pow2Add(m - 1, n);
      MulAssoc(2, Pow2(m - 1), Pow2(n));
    }
  }

  lemma MulAssoc(a: int, b: int, c: int)
    ensures (a * b) * c == a * (b * c)
  {
  }

  lemma MulMonotone(p: nat, a: nat, b: nat)
    requires a <= b
    ensures p * a <= p * b
  {
  }

  lemma DivAtLeast(a: nat, b: nat, p: nat)
    requires p > 0 && a >= p * b
    ensures a / p >= b
  {
    if a / p < b {
      assert a == p * (a / p) + a % p;
      MulMonotone(p, a / p + 1, b);
    }
  }

  lemma {:induction false} Pow2Monotone(m: nat, n: nat)
    requires m <= n
    ensures Pow2(m) <= Pow2(n)
  {
    if m < n {
      Pow2Monotone(m, n - 1);
    }
  }

  /** The number whose bits, least significant first, are s. */
  function Val(s: seq<bool>): nat {
    if s == [] then 0 else (if s[0] then 1 else 0) + 2 * Val(s[1..])
  }

  /** Bit i of v. */
  predicate Bit(v: nat, i: nat) {
    if i == 0 then v % 2 == 1 else Bit(v / 2, i - 1)
  }

  lemma {:induction false} ValBit(s: seq<bool>, i: nat)
    requires i < |s|
    ensures Bit(Val(s), i) == s[i]
  {
    if i != 0 {
      ValBit(s[1..], i - 1);
    }
  }

  lemma {:induction false} ValConcat(s: seq<bool>, t: seq<bool>)
    ensures Val(s + t) == Val(s) + Pow2(|s|) * Val(t)
  {
    if s == [] {
      assert s + t == t;
    } else {
      assert (s + t)[1..] == s[1..] + t;
      ValConcat(s[1..], t);
      MulAssoc(2, Pow2(|s| - 1), Val(t));
    }
  }

  lemma {:induction false} ValZeros(s: seq<bool>)
    requires forall i :: 0 <= i < |s| ==> !s[i]
    ensures Val(s) == 0
  {
    if s != [] {
      ValZeros(s[1..]);
    }
  }
}
