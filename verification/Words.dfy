/** Thirty-two bit words as their bits, least significant first, with the C
    operators the checksum code uses on them. Exclusive or is addition in the
    vector space of words over the two-element field. */
module Words {
  type Word = w: seq<bool> | |w| == 32 witness Zeros(32)
  type Byte = b: seq<bool> | |b| == 8 witness Zeros(8)

  function Zeros(n: nat): (z: seq<bool>)
    ensures |z| == n
    ensures forall i :: 0 <= i < n ==> !z[i]
  {
    seq(n, i => false)
  }

  const ZERO: Word := Zeros(32)

  /** a ^ b */
  function Xor(a: Word, b: Word): (c: Word)
    ensures forall i :: 0 <= i < 32 ==> c[i] == (a[i] != b[i])
  {
    seq(32, i requires 0 <= i < 32 => a[i] != b[i])
  }

  /** ~a */
  function Not(a: Word): (c: Word)
    ensures forall i :: 0 <= i < 32 ==> c[i] == !a[i]
  {
    seq(32, i requires 0 <= i < 32 => !a[i])
  }

  /** a >> k, unsigned */
  function Shr(a: Word, k: nat): (c: Word)
    requires k <= 32
    ensures forall i :: 0 <= i < 32 ==> c[i] == (i + k < 32 && a[i + k])
  {
    a[k..] + Zeros(k)
  }

  /** a << k, the bits shifted out lost */
  function Shl(a: Word, k: nat): (c: Word)
    requires k <= 32
    ensures forall i :: 0 <= i < 32 ==> c[i] == (i >= k && a[i - k])
  {
    Zeros(k) + a[..32 - k]
  }

  /** a & b */
  function And(a: Word, b: Word): (c: Word)
    ensures forall i :: 0 <= i < 32 ==> c[i] == (a[i] && b[i])
  {
    seq(32, i requires 0 <= i < 32 => a[i] && b[i])
  }

  /** -int32_t(b): all ones or all zeros */
  function Spread(b: bool): (c: Word)
    ensures forall i :: 0 <= i < 32 ==> c[i] == b
  {
    seq(32, i => b)
  }

  /** a >> k on a signed word: the sign bit fills in */
  function Sar(a: Word, k: nat): (c: Word)
    requires k < 32
    ensures forall i :: 0 <= i < 32 ==> c[i] == a[if i + k < 32 then i + k else 31]
  {
    a[k..] + Spread(a[31])[..k]
  }

  /** a ^ b on single bytes */
  function XorByte(a: Byte, b: Byte): (c: Byte)
    ensures forall i :: 0 <= i < 8 ==> c[i] == (a[i] != b[i])
  {
    seq(8, i requires 0 <= i < 8 => a[i] != b[i])
  }

  /** (uint8_t)a */
  function LowByte(a: Word): Byte {
    a[..8]
  }

  /** The implicit widening of an uint8_t. */
  function Widen(b: Byte): (c: Word)
    ensures forall i :: 0 <= i < 32 ==> c[i] == (i < 8 && b[i])
  {
    b + Zeros(24)
  }

  lemma XorAssoc(a: Word, b: Word, c: Word)
    ensures Xor(Xor(a, b), c) == Xor(a, Xor(b, c))
  {
  }

  lemma XorZero(a: Word)
    ensures Xor(a, ZERO) == a && Xor(ZERO, a) == a
  {
  }

  lemma XorSelf(a: Word)
    ensures Xor(a, a) == ZERO
  {
  }

  lemma NotNot(a: Word)
    ensures Not(Not(a)) == a
  {
  }

  lemma CutChain(acc: Word, a: Word, b: Word, c: Word, d: Word)
    ensures Xor(Xor(Xor(Xor(acc, a), b), c), d) == Xor(acc, Xor(Xor(Xor(a, b), c), d))
  {
  }

  lemma FlattenSum(a: Word, b: Word, c: Word, d: Word)
    ensures Xor(a, Xor(b, Xor(c, d))) == Xor(Xor(Xor(a, b), c), d)
  {
  }

  lemma ShlXor(a: Word, b: Word, k: nat)
    requires k <= 32
    ensures Shl(Xor(a, b), k) == Xor(Shl(a, k), Shl(b, k))
  {
  }
}
