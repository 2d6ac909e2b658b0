/** Strings of bits as the compressor writes them, most significant first. */
module BitStream {
  import opened Arithmetic
  import opened Words

  /** The n low bits of v. */
  function Low(v: nat, n: nat): (s: seq<bool>)
    ensures |s| == n && forall i :: 0 <= i < n ==> s[i] == Bit(v, n - 1 - i)
  {
    seq(n, i requires 0 <= i < n => Bit(v, n - 1 - i))
  }

  /** The number a string of bits stands for. */
  function Number(s: seq<bool>): nat {
    if s == [] then 0 else 2 * Number(s[..|s| - 1]) + if s[|s| - 1] then 1 else 0
  }

  lemma LowStep(v: nat, n: nat)
    requires n > 0
    ensures Low(v, n)[..n - 1] == Low(v / 2, n - 1) && Low(v, n)[n - 1] == (v % 2 == 1)
  {
    forall i | 0 <= i < n - 1 ensures Low(v, n)[i] == Low(v / 2, n - 1)[i] {
      assert Bit(v, n - 1 - i) == Bit(v / 2, n - 2 - i);
    }
  }

  /** A number that fits reads back. */
  lemma {:induction false} LowNumber(v: nat, n: nat)
    requires v < Pow2(n)
    ensures Number(Low(v, n)) == v
  {
    if n > 0 {
      LowStep(v, n);
      LowNumber(v / 2, n - 1);
    }
  }

  lemma LowAppend(v: nat, n: nat, b: bool)
    ensures Low(2 * v + (if b then 1 else 0), n + 1) == Low(v, n) + [b]
  {
    var u := 2 * v + if b then 1 else 0;
    LowStep(u, n + 1);
    assert u / 2 == v && (u % 2 == 1) == b;
    hide Bit;
    var t := Low(u, n + 1);
    assert t == t[..n] + [t[n]];
  }

  lemma {:induction false} NumberLow(s: seq<bool>)
    ensures Low(Number(s), |s|) == s && Number(s) < Pow2(|s|)
  {
    hide Low;
    if s == [] {
      LowNone(0);
    } else {
      var front, last := s[..|s| - 1], s[|s| - 1];
      NumberLow(front);
      LowAppend(Number(front), |front|, last);
      assert s == front + [last];
    }
  }

  lemma LowNone(v: nat)
    ensures Low(v, 0) == []
  {
  }

  lemma {:induction false} HighBitsClear(v: nat, n: nat, i: nat)
    requires v < Pow2(n) && n <= i
    ensures !Bit(v, i)
  {
    if i > 0 && n > 0 {
      HighBitsClear(v / 2, n - 1, i - 1);
    } else if i > 0 {
      HighBitsClear(0, 0, i - 1);
    }
  }

  /** (UInt32)v */
  function WordOf(v: nat): (w: Word)
    ensures forall i :: 0 <= i < 32 ==> w[i] == Bit(v, i)
  {
    seq(32, i requires 0 <= i < 32 => Bit(v, i))
  }

  /** a | b */
  function Or(a: Word, b: Word): (c: Word)
    ensures forall i :: 0 <= i < 32 ==> c[i] == (a[i] || b[i])
  {
    seq(32, i requires 0 <= i < 32 => a[i] || b[i])
  }

  /** The n bits at the top of a word. */
  function Top(w: Word, n: int): (s: seq<bool>)
    requires n <= 32
    ensures |s| == (if n < 0 then 0 else n) && forall i :: 0 <= i < n ==> s[i] == w[31 - i]
  {
    if n < 0 then [] else seq(n, i requires 0 <= i < n => w[31 - i])
  }

  /** The bits of a byte. */
  function Octet(b: Words.Byte): (s: seq<bool>)
    ensures |s| == 8 && forall i :: 0 <= i < 8 ==> s[i] == b[7 - i]
  {
    seq(8, i requires 0 <= i < 8 => b[7 - i])
  }

  /** The bits of all the bytes. */
  function Octets(z: seq<Words.Byte>): seq<bool> {
    if z == [] then [] else Octets(z[..|z| - 1]) + Octet(z[|z| - 1])
  }

  lemma {:induction false} OctetsLength(z: seq<Words.Byte>)
    ensures |Octets(z)| == 8 * |z|
  {
    if z != [] {
      OctetsLength(z[..|z| - 1]);
    }
  }

  lemma OctetsMore(z: seq<Words.Byte>, b: Words.Byte)
    ensures Octets(z + [b]) == Octets(z) + Octet(b)
  {
    assert (z + [b])[..|z|] == z;
  }

  lemma {:induction false} OctetsConcat(y: seq<Words.Byte>, z: seq<Words.Byte>)
    ensures Octets(y + z) == Octets(y) + Octets(z)
  {
    if z == [] {
      assert y + z == y;
    } else {
      var front, last := z[..|z| - 1], z[|z| - 1];
      assert z == front + [last] && y + z == (y + front) + [last];
      OctetsConcat(y, front);
      OctetsMore(y + front, last);
    }
  }

  /** The next n bits, as a number. */
  function Read(s: seq<bool>, n: nat): nat
    requires n <= |s|
  {
    Number(s[..n])
  }

  lemma ReadBack(v: nat, n: nat, rest: seq<bool>)
    requires v < Pow2(n)
    ensures Read(Low(v, n) + rest, n) == v && (Low(v, n) + rest)[n..] == rest
  {
    LowNumber(v, n);
    assert (Low(v, n) + rest)[..n] == Low(v, n);
  }

  // ----- one turn of the writer --------------------------------------------

  /** The bits below the live ones are clear. */
  predicate Clear(w: Word, live: int) {
    forall i :: 0 <= i < 32 && i < 32 - live ==> !w[i]
  }

  /** The top byte goes out, the rest moves up. */
  lemma ShiftOut(w: Word, live: int)
    requires live <= 32 && Clear(w, live)
    ensures Clear(Shl(w, 8), live - 8)
    ensures 8 <= live ==> Octet(LowByte(Shr(w, 24))) + Top(Shl(w, 8), live - 8) == Top(w, live)
    ensures 0 <= live < 8 ==> Octet(LowByte(Shr(w, 24))) == Top(w, live) + Zeros(8 - live)
  {
    var b, up := LowByte(Shr(w, 24)), Shl(w, 8);
    forall i | 0 <= i < 8 ensures Octet(b)[i] == w[31 - i] {
      assert b[7 - i] == w[31 - i];
    }
    if 8 <= live {
      var s := Octet(b) + Top(up, live - 8);
      forall i | 0 <= i < live ensures s[i] == Top(w, live)[i] {
        if i >= 8 {
          assert up[31 - (i - 8)] == w[31 - i];
        }
      }
    }
  }

  /** Or-ing in n bits below the live ones appends them. */
  lemma OrIn(w: Word, live: nat, v: nat, n: nat)
    requires Clear(w, live) && live + n <= 32 && v < Pow2(n)
    ensures var u := Or(w, Shl(WordOf(v), 32 - live - n));
      Clear(u, live + n) && Top(u, live + n) == Top(w, live) + Low(v, n)
  {
    var k := 32 - live - n;
    var u := Or(w, Shl(WordOf(v), k));
    forall i | 0 <= i < 32 && i >= 32 - live ensures u[i] == w[i] {
      HighBitsClear(v, n, i - k);
    }
    var s, t := Top(u, live + n), Top(w, live) + Low(v, n);
    forall i | 0 <= i < live + n ensures s[i] == t[i] {
      assert s[i] == u[31 - i];
      if live <= i {
        assert t[i] == Low(v, n)[i - live];
      }
    }
  }

  // ----- whole bytes and words ---------------------------------------------

  lemma LowVal(b: seq<bool>)
    ensures Low(Val(b), |b|) == seq(|b|, i requires 0 <= i < |b| => b[|b| - 1 - i])
  {
    forall i | 0 <= i < |b| ensures Low(Val(b), |b|)[i] == b[|b| - 1 - i] {
      ValBit(b, |b| - 1 - i);
    }
  }

  lemma {:induction false} ValRange(b: seq<bool>)
    ensures Val(b) < Pow2(|b|)
  {
    if b != [] {
      ValRange(b[1..]);
    }
  }

  /** The four bytes of a word, the high one first, are its bits. */
  lemma FourOctets(u: Word)
    ensures Top(u, 32) ==
      Low(Val(LowByte(Shr(u, 24))), 8) + Low(Val(LowByte(Shr(u, 16))), 8) + Low(Val(LowByte(Shr(u, 8))), 8) + Low(Val(LowByte(u)), 8)
  {
    var a, b, c, d := LowByte(Shr(u, 24)), LowByte(Shr(u, 16)), LowByte(Shr(u, 8)), LowByte(u);
    LowVal(a);
    LowVal(b);
    LowVal(c);
    LowVal(d);
    var s := Low(Val(a), 8) + Low(Val(b), 8) + Low(Val(c), 8) + Low(Val(d), 8);
    forall i | 0 <= i < 32 ensures s[i] == u[31 - i] {
      if i < 8 {
        assert s[i] == a[7 - i];
      } else if i < 16 {
        assert s[i] == b[15 - i];
      } else if i < 24 {
        assert s[i] == c[23 - i];
      } else {
        assert s[i] == d[31 - i];
      }
    }
  }

  // ----- bytes in a string of bits -----------------------------------------

  /** The byte that begins at bit 8k. */
  function ByteOf(s: seq<bool>, k: nat): nat
    requires 8 * k + 8 <= |s|
  {
    Number(s[8 * k..8 * k + 8])
  }

  lemma NumberOctet(b: Words.Byte)
    ensures Number(Octet(b)) == Val(b)
  {
    LowVal(b);
    ValRange(b);
    assert Octet(b) == Low(Val(b), 8);
    LowNumber(Val(b), 8);
  }

  /** The bytes of the bits of bytes. */
  lemma OctetsByte(z: seq<Words.Byte>, k: nat)
    requires k < |z|
    ensures 8 * k + 8 <= |Octets(z)| && ByteOf(Octets(z), k) == Val(z[k])
  {
    var front, rest := z[..k], z[k + 1..];
    assert z == (front + [z[k]]) + rest;
    OctetsConcat(front + [z[k]], rest);
    OctetsMore(front, z[k]);
    OctetsLength(front);
    hide Octets, Octet;
    assert Octets(z) == Octets(front) + Octet(z[k]) + Octets(rest);
    assert Octets(z)[8 * k..8 * k + 8] == Octet(z[k]);
    NumberOctet(z[k]);
  }

  lemma LowByteOf(s: seq<bool>, k: nat, v: nat)
    requires 8 * k + 8 <= |s| && s[8 * k..8 * k + 8] == Low(v, 8) && v < 256
    ensures ByteOf(s, k) == v
  {
    assert Pow2(8) == 256;
    LowNumber(v, 8);
  }
}
