/** The 32-bit buffered bit writer. */
module BitWriters {
  import opened Arithmetic
  import opened Words
  import opened BitStream

  class BitWriter {
    /** zbits[0..numZ] */
    var zbits: seq<Words.Byte>
    var bsBuff: Word
    var bsLive: int

    ghost predicate Valid()
      reads this
    {
      -8 < bsLive <= 32 && Clear(bsBuff, bsLive)
    }

    /** Everything written: the bytes put out and the bits still in the buffer. */
    ghost function Bits(): seq<bool>
      reads this
      requires Valid()
    {
      Octets(zbits) + Top(bsBuff, bsLive)
    }

    /** The bytes put out are part of what was written. */
    lemma BytesOut()
      requires Valid()
      ensures 8 * |zbits| <= |Bits()| && (zbits == [] ==> |Bits()| <= 32)
    {
      OctetsLength(zbits);
    }

    constructor ()
      ensures Valid() && zbits == [] && bsLive == 0
    {
      zbits, bsBuff, bsLive := [], ZERO, 0;
    }

    /** BZ2_bsInitWrite */
    method InitWrite()
      modifies this`bsBuff, this`bsLive
      ensures Valid() && bsLive == 0 && Bits() == Octets(zbits)
    {
      bsLive := 0;
      bsBuff := ZERO;
    }

    /** numZ = 0: what was put out is forgotten, the buffer is kept. */
    method Restart()
      requires Valid()
      modifies this`zbits
      ensures Valid() && zbits == [] && Bits() == Octets([]) + Top(bsBuff, bsLive)
      ensures old(Bits()) == Octets(old(zbits)) + Top(bsBuff, bsLive)
    {
      zbits := [];
    }

    /** One byte of the buffer goes out; a last one is filled up with zeros. */
    method OutByte()
      requires Valid() && bsLive > 0
      modifies this
      ensures Valid() && bsLive == old(bsLive) - 8
      ensures bsLive >= 0 ==> Bits() == old(Bits())
      ensures bsLive < 0 ==> Octets(zbits) == old(Bits()) + Zeros(-bsLive)
    {
      var b := LowByte(Shr(bsBuff, 24));
      ShiftOut(bsBuff, bsLive);
      OctetsMore(zbits, b);
      hide Octets, Octet, Clear, Top;
      zbits := zbits + [b];
      bsBuff := Shl(bsBuff, 8);
      bsLive := bsLive - 8;
    }

    /** bsNEEDW */
    method Need()
      requires Valid() && bsLive >= 0
      modifies this
      ensures Valid() && 0 <= bsLive < 8 && Bits() == old(Bits())
    {
      hide Octets, Clear, Top;
      while bsLive >= 8
        invariant Valid() && 0 <= bsLive && Bits() == old(Bits())
      {
        OutByte();
      }
    }

    /** bsW: appends exactly the n low bits of v. */
    method W(n: nat, v: nat)
      requires Valid() && bsLive >= 0 && n <= 24 && v < Pow2(n)
      modifies this
      ensures Valid() && bsLive >= 0 && Bits() == old(Bits()) + Low(v, n)
    {
      hide Octets, Clear, Top, Low;
      Need();
      OrIn(bsBuff, bsLive, v, n);
      bsBuff := Or(bsBuff, Shl(WordOf(v), 32 - bsLive - n));
      bsLive := bsLive + n;
    }

    /** bsPutUChar */
    method PutUChar(c: nat)
      requires Valid() && bsLive >= 0 && c < 256
      modifies this
      ensures Valid() && bsLive >= 0 && Bits() == old(Bits()) + Low(c, 8)
    {
      hide Clear, Bits, Low;
      assert Pow2(8) == 256;
      W(8, c);
    }

    /** bsPutUInt32: the 32 bits of u. */
    method PutUInt32(u: Word)
      requires Valid() && bsLive >= 0
      modifies this
      ensures Valid() && bsLive >= 0 && Bits() == old(Bits()) + Top(u, 32)
    {
      hide *;
      var a, b, c, d := LowByte(Shr(u, 24)), LowByte(Shr(u, 16)), LowByte(Shr(u, 8)), LowByte(u);
      ValRange(a);
      ValRange(b);
      ValRange(c);
      ValRange(d);
      FourOctets(u);
      W(8, Val(a));
      W(8, Val(b));
      W(8, Val(c));
      W(8, Val(d));
    }

    /** Six bytes of a marker. */
    method PutSix(a: nat, b: nat, c: nat, d: nat, e: nat, f: nat)
      requires Valid() && bsLive >= 0 && a < 256 && b < 256 && c < 256 && d < 256 && e < 256 && f < 256
      modifies this
      ensures Valid() && bsLive >= 0
        && Bits() == old(Bits()) + (Low(a, 8) + Low(b, 8) + Low(c, 8) + Low(d, 8) + Low(e, 8) + Low(f, 8))
    {
      hide *;
      PutUChar(a);
      PutUChar(b);
      PutUChar(c);
      PutUChar(d);
      PutUChar(e);
      PutUChar(f);
    }

    /** A string of bits, one at a time. */
    method PutBits(s: seq<bool>)
      requires Valid() && bsLive >= 0
      modifies this
      ensures Valid() && bsLive >= 0 && Bits() == old(Bits()) + s
    {
      hide *;
      for i := 0 to |s|
        invariant Valid() && bsLive >= 0 && Bits() == old(Bits()) + s[..i]
      {
        OneBit(s[i]);
        W(1, if s[i] then 1 else 0);
        assert s[..i + 1] == s[..i] + [s[i]];
      }
      assert s[..|s|] == s;
    }

    /** bsFinishWrite: fills up the last byte and leaves nothing in the buffer. */
    method FinishWrite()
      requires Valid() && bsLive >= 0
      modifies this
      ensures Valid() && -8 < bsLive <= 0
      ensures Octets(zbits) == old(Bits()) + Zeros(-bsLive) && Bits() == Octets(zbits)
    {
      hide Octets, Clear;
      assert Octets(zbits) + Top(bsBuff, 0) + Zeros(0) == Octets(zbits);
      while bsLive > 0
        invariant Valid()
        invariant bsLive >= 0 ==> Bits() == old(Bits())
        invariant bsLive < 0 ==> Octets(zbits) == old(Bits()) + Zeros(-bsLive)
      {
        OutByte();
      }
    }
  }

  lemma OneBit(b: bool)
    ensures (if b then 1 else 0) < Pow2(1) && Low(if b then 1 else 0, 1) == [b]
  {
  }
}
