/** Hash texts as users write them: an optional method name, then hex digits. */
module HashText {
  import opened Rotations
  import opened Sequences

  /** A UTF-16 unit. */
  type WChar = c: int | 0 <= c < 65536

  /** hash_t, in order */
  const SHA224 := 1
  const SHA256 := 2
  const SHA384 := 3
  const SHA512 := 4
  const SHA3 := 5
  const SHA3_224 := 6
  const SHA3_256 := 7
  const SHA3_384 := 8
  const SHA3_512 := 9
  const BLAKE3 := 10

  function Text(s: string): (t: seq<WChar>)
    ensures |t| == |s|
  {
    seq(|s|, i requires 0 <= i < |s| => (s[i] as int) % 65536)
  }

  datatype Named = Named(prefix: string, hashMethod: nat, hashsz: nat)

  /** hnmaps */
  function Names(): seq<Named> {
    [Named("BLAKE3", BLAKE3, 32), Named("SHA224", SHA224, 28), Named("SHA256", SHA256, 32), Named("SHA384", SHA384, 48),
     Named("SHA512", SHA512, 64), Named("SHA3-224", SHA3_224, 28), Named("SHA3-256", SHA3_256, 32), Named("SHA3-384", SHA3_384, 48),
     Named("SHA3-512", SHA3_512, 64), Named("SHA3", SHA3, 32)]
  }

  /** AsciiStrToUpper */
  function Upper(c: WChar): WChar {
    if 'a' as int <= c <= 'z' as int then c - 32 else c
  }

  function UpperAll(t: seq<WChar>): (u: seq<WChar>)
    ensures |u| == |t| && forall i :: 0 <= i < |t| ==> u[i] == Upper(t[i])
  {
    seq(|t|, i requires 0 <= i < |t| => Upper(t[i]))
  }

  /** hexval_table on the low byte of a unit; -1 if it is no digit */
  function HexValue(c: WChar): (v: int)
    ensures -1 <= v < 16
  {
    var b := c % 256;
    if '0' as int <= b <= '9' as int then b - '0' as int
    else if 'a' as int <= b <= 'f' as int then b - 'a' as int + 10
    else if 'A' as int <= b <= 'F' as int then b - 'A' as int + 10
    else -1
  }

  /** decode_byte_couple */
  function Couple(a: WChar, b: WChar): (v: int)
    ensures -1 <= v < 256
  {
    if HexValue(a) < 0 || HexValue(b) < 0 then -1 else 16 * HexValue(a) + HexValue(b)
  }

  const HASH_BYTES := 64

  function Couples(t: seq<WChar>): (n: nat)
    ensures 2 * n <= |t| && n <= HASH_BYTES
  {
    if |t| / 2 < HASH_BYTES then |t| / 2 else HASH_BYTES
  }

  /** Every pair that counts is a pair of digits. */
  predicate Decodable(t: seq<WChar>) {
    forall i :: 0 <= i < Couples(t) ==> Couple(t[2 * i], t[2 * i + 1]) >= 0
  }

  /** The hash a text stands for: a last odd digit and digits beyond 64 bytes
      are ignored, missing bytes are zero. */
  function HashBytes(t: seq<WChar>): (h: seq<Byte>)
    requires Decodable(t)
    ensures |h| == HASH_BYTES
  {
    seq(HASH_BYTES, i requires 0 <= i < HASH_BYTES => if i < Couples(t) then Couple(t[2 * i], t[2 * i + 1]) else 0)
  }

  /** hash_decode into a cleared buffer */
  method HashDecode(t: seq<WChar>, buffer: array<Byte>) returns (ok: bool)
    requires buffer.Length == HASH_BYTES && forall i :: 0 <= i < HASH_BYTES ==> buffer[i] == 0
    modifies buffer
    ensures ok == Decodable(t) && (ok ==> buffer[..] == HashBytes(t))
  {
    var ms := if |t| / 2 < HASH_BYTES then |t| / 2 else HASH_BYTES;
    for i := 0 to ms
      invariant forall k :: 0 <= k < i ==>
        Couple(t[2 * k], t[2 * k + 1]) >= 0 && buffer[k] == Couple(t[2 * k], t[2 * k + 1])
      invariant forall k :: i <= k < HASH_BYTES ==> buffer[k] == 0
    {
      var b := Couple(t[2 * i], t[2 * i + 1]);
      if b < 0 {
        assert i < Couples(t);
        return false;
      }
      buffer[i] := b;
    }
    ok := true;
  }

  // ----- method names ------------------------------------------------------

  /** Where the first colon is, or the length of the text. */
  function Colon(t: seq<WChar>): (p: nat)
    ensures p <= |t| && (p < |t| ==> t[p] == ':' as int) && forall i :: 0 <= i < p ==> t[i] != ':' as int
  {
    if t == [] then 0 else if t[0] == ':' as int then 0 else 1 + Colon(t[1..])
  }

  /** The entry a name stands for. */
  function Lookup(names: seq<Named>, prefix: seq<WChar>): Option<Named> {
    if names == [] then None else if Text(names[0].prefix) == prefix then Some(names[0]) else Lookup(names[1..], prefix)
  }

  datatype Hash = Hash(hashMethod: nat, hashsz: nat, bytes: seq<Byte>)

  /** What hash_construct makes of a text: SHA256 if no method is named. */
  function Meaning(t: seq<WChar>): Option<Hash> {
    var p := Colon(t);
    if p == |t| then
      if Decodable(t) then Some(Hash(SHA256, 32, HashBytes(t))) else None
    else
      match Lookup(Names(), UpperAll(t[..p]))
      case None => None
      case Some(named) =>
        if Decodable(t[p + 1..]) then Some(Hash(named.hashMethod, named.hashsz, HashBytes(t[p + 1..]))) else None
  }

  method Find(t: seq<WChar>) returns (p: nat)
    ensures p == Colon(t)
  {
    p := 0;
    while p < |t| && t[p] != ':' as int
      invariant p <= |t| && Colon(t) == p + Colon(t[p..])
    {
      assert t[p..][1..] == t[p + 1..];
      p := p + 1;
    }
    if p < |t| {
      assert t[p..][0] == ':' as int;
    }
  }

  /** hash_construct */
  method Construct(t: seq<WChar>) returns (r: Option<Hash>)
    ensures r == Meaning(t)
  {
    var value, hashMethod, hashsz := t, SHA256, 32;
    var p := Find(t);
    if p != |t| {
      value := t[p + 1..];
      var prefix := UpperAll(t[..p]);
      var names := Names();
      var i := 0;
      while i < |names| && Text(names[i].prefix) != prefix
        invariant i <= |names| && Lookup(names, prefix) == Lookup(names[i..], prefix)
      {
        assert names[i..][1..] == names[i + 1..];
        i := i + 1;
      }
      if i == |names| {
        return None;
      }
      hashMethod, hashsz := names[i].hashMethod, names[i].hashsz;
    }
    var buffer := new Byte[HASH_BYTES](i => 0);
    var ok := HashDecode(value, buffer);
    r := if ok then Some(Hash(hashMethod, hashsz, buffer[..])) else None;
  }

  // ----- what texts mean ---------------------------------------------------

  /** A name written with its capital letters as they are or as small letters. */
  predicate Spells(prefix: seq<WChar>, name: string) {
    && |prefix| == |name|
    && forall i :: 0 <= i < |name| ==>
      prefix[i] == name[i] as int || (65 <= name[i] as int <= 90 && prefix[i] == name[i] as int + 32)
  }

  /** The ten names, with the number of their method and the size of its hash. */
  predicate TenNames(prefix: seq<WChar>, hashMethod: nat, hashsz: nat) {
    || (Spells(prefix, "BLAKE3") && hashMethod == 10 && hashsz == 32)
    || (Spells(prefix, "SHA224") && hashMethod == 1 && hashsz == 28)
    || (Spells(prefix, "SHA256") && hashMethod == 2 && hashsz == 32)
    || (Spells(prefix, "SHA384") && hashMethod == 3 && hashsz == 48)
    || (Spells(prefix, "SHA512") && hashMethod == 4 && hashsz == 64)
    || (Spells(prefix, "SHA3-224") && hashMethod == 6 && hashsz == 28)
    || (Spells(prefix, "SHA3-256") && hashMethod == 7 && hashsz == 32)
    || (Spells(prefix, "SHA3-384") && hashMethod == 8 && hashsz == 48)
    || (Spells(prefix, "SHA3-512") && hashMethod == 9 && hashsz == 64)
    || (Spells(prefix, "SHA3") && hashMethod == 5 && hashsz == 32)
  }

  /** A hex digit of value v; only the low byte of a unit counts. */
  predicate IsDigit(c: WChar, v: nat) {
    if v < 10 then c % 256 == 48 + v else v < 16 && (c % 256 == 55 + v || c % 256 == 87 + v)
  }

  /** Digits that write out these 64 bytes: a last odd digit and digits beyond 64
      bytes do not count, missing bytes are zero. */
  predicate Writes(t: seq<WChar>, bytes: seq<Byte>) {
    && |bytes| == 64
    && forall i :: 0 <= i < 64 ==>
      if 2 * i + 1 < |t| then IsDigit(t[2 * i], bytes[i] / 16) && IsDigit(t[2 * i + 1], bytes[i] % 16) else bytes[i] == 0
  }

  lemma DigitIs(c: WChar, v: nat)
    requires v < 16
    ensures IsDigit(c, v) <==> HexValue(c) == v
  {
  }

  lemma CoupleIs(a: WChar, b: WChar, v: Byte)
    ensures IsDigit(a, v / 16) && IsDigit(b, v % 16) <==> Couple(a, b) == v
  {
    DigitIs(a, v / 16);
    DigitIs(b, v % 16);
  }

  lemma WritesIs(t: seq<WChar>, bytes: seq<Byte>)
    ensures Writes(t, bytes) <==> Decodable(t) && HashBytes(t) == bytes
  {
    hide Couple, IsDigit;
    if |bytes| == 64 {
      forall i | 0 <= i < 64 && 2 * i + 1 < |t|
        ensures IsDigit(t[2 * i], bytes[i] / 16) && IsDigit(t[2 * i + 1], bytes[i] % 16) <==>
          Couple(t[2 * i], t[2 * i + 1]) == bytes[i]
      {
        CoupleIs(t[2 * i], t[2 * i + 1], bytes[i]);
      }
    }
    if Writes(t, bytes) {
      assert Decodable(t);
      assert HashBytes(t) == bytes;
    }
  }

  lemma LetterIs(c: WChar, n: int)
    requires 0 <= n < 128 && !(97 <= n <= 122)
    ensures Upper(c) == n <==> c == n || (65 <= n <= 90 && c == n + 32)
  {
  }

  lemma SpellsIs(prefix: seq<WChar>, name: string)
    requires forall i :: 0 <= i < |name| ==> 0 <= name[i] as int < 128 && !(97 <= name[i] as int <= 122)
    ensures UpperAll(prefix) == Text(name) <==> Spells(prefix, name)
  {
    hide Upper;
    if |prefix| == |name| {
      forall i | 0 <= i < |name|
        ensures UpperAll(prefix)[i] == Text(name)[i] <==>
          prefix[i] == name[i] as int || (65 <= name[i] as int <= 90 && prefix[i] == name[i] as int + 32)
      {
        LetterIs(prefix[i], name[i] as int);
      }
      if Spells(prefix, name) {
        assert UpperAll(prefix) == Text(name);
      }
      if UpperAll(prefix) == Text(name) {
        assert forall i :: 0 <= i < |name| ==> UpperAll(prefix)[i] == Text(name)[i];
      }
    }
  }

  lemma LookupStep(named: Named, names: seq<Named>, u: seq<WChar>)
    ensures Lookup([named] + names, u) == if Text(named.prefix) == u then Some(named) else Lookup(names, u)
  {
    assert ([named] + names)[1..] == names;
  }

  lemma NoNames(u: seq<WChar>)
    ensures Lookup([], u) == None
  {
  }

  /** One entry of the table after the other. */
  lemma LookupIs(prefix: seq<WChar>, names: seq<Named>, name: string, hashMethod: nat, hashsz: nat)
    requires forall i :: 0 <= i < |name| ==> 0 <= name[i] as int < 128 && !(97 <= name[i] as int <= 122)
    ensures Lookup([Named(name, hashMethod, hashsz)] + names, UpperAll(prefix)) ==
      if Spells(prefix, name) then Some(Named(name, hashMethod, hashsz)) else Lookup(names, UpperAll(prefix))
  {
    SpellsIs(prefix, name);
    LookupStep(Named(name, hashMethod, hashsz), names, UpperAll(prefix));
  }

  /** No text spells two of the names. */
  lemma Marks(prefix: seq<WChar>)
    ensures Spells(prefix, "BLAKE3") ==> |prefix| == 6 && (prefix[4] == 69 || prefix[4] == 101)
    ensures Spells(prefix, "SHA224") ==> |prefix| == 6 && prefix[4] == 50
    ensures Spells(prefix, "SHA256") ==> |prefix| == 6 && prefix[4] == 53
    ensures Spells(prefix, "SHA384") ==> |prefix| == 6 && prefix[4] == 56
    ensures Spells(prefix, "SHA512") ==> |prefix| == 6 && prefix[4] == 49
    ensures Spells(prefix, "SHA3-224") ==> |prefix| == 8 && prefix[6] == 50
    ensures Spells(prefix, "SHA3-256") ==> |prefix| == 8 && prefix[6] == 53
    ensures Spells(prefix, "SHA3-384") ==> |prefix| == 8 && prefix[6] == 56
    ensures Spells(prefix, "SHA3-512") ==> |prefix| == 8 && prefix[6] == 49
    ensures Spells(prefix, "SHA3") ==> |prefix| == 4
  {
    assert "BLAKE3"[4] as int == 69;
    assert "SHA224"[4] as int == 50;
    assert "SHA256"[4] as int == 53;
    assert "SHA384"[4] as int == 56;
    assert "SHA512"[4] as int == 49;
    assert "SHA3-224"[6] as int == 50;
    assert "SHA3-256"[6] as int == 53;
    assert "SHA3-384"[6] as int == 56;
    assert "SHA3-512"[6] as int == 49;
    assert "SHA3"[3] as int == 51;
  }

  /** What the table makes of a name. */
  lemma TableIs(prefix: seq<WChar>, hashMethod: nat, hashsz: nat)
    ensures TenNames(prefix, hashMethod, hashsz) <==>
      var found := Lookup(Names(), UpperAll(prefix)); found.Some? && found.value.hashMethod == hashMethod && found.value.hashsz == hashsz
  {
    Marks(prefix);
    hide Lookup, Spells, UpperAll, Text;
    NoNames(UpperAll(prefix));
    var table: seq<Named> := [];
    LookupIs(prefix, table, "SHA3", SHA3, 32);
    table := [Named("SHA3", SHA3, 32)] + table;
    LookupIs(prefix, table, "SHA3-512", SHA3_512, 64);
    table := [Named("SHA3-512", SHA3_512, 64)] + table;
    LookupIs(prefix, table, "SHA3-384", SHA3_384, 48);
    table := [Named("SHA3-384", SHA3_384, 48)] + table;
    LookupIs(prefix, table, "SHA3-256", SHA3_256, 32);
    table := [Named("SHA3-256", SHA3_256, 32)] + table;
    LookupIs(prefix, table, "SHA3-224", SHA3_224, 28);
    table := [Named("SHA3-224", SHA3_224, 28)] + table;
    LookupIs(prefix, table, "SHA512", SHA512, 64);
    table := [Named("SHA512", SHA512, 64)] + table;
    LookupIs(prefix, table, "SHA384", SHA384, 48);
    table := [Named("SHA384", SHA384, 48)] + table;
    LookupIs(prefix, table, "SHA256", SHA256, 32);
    table := [Named("SHA256", SHA256, 32)] + table;
    LookupIs(prefix, table, "SHA224", SHA224, 28);
    table := [Named("SHA224", SHA224, 28)] + table;
    LookupIs(prefix, table, "BLAKE3", BLAKE3, 32);
    table := [Named("BLAKE3", BLAKE3, 32)] + table;
    assert table == Names();
  }

  lemma {:induction false} ColonAfter(prefix: seq<WChar>, rest: seq<WChar>)
    requires forall i :: 0 <= i < |prefix| ==> prefix[i] != ':' as int
    ensures Colon(prefix + [':' as int] + rest) == |prefix|
  {
    var t := prefix + [':' as int] + rest;
    if prefix != [] {
      assert t[1..] == prefix[1..] + [':' as int] + rest;
      ColonAfter(prefix[1..], rest);
    }
  }

  lemma {:induction false} NoColon(t: seq<WChar>)
    requires forall i :: 0 <= i < |t| ==> t[i] != ':' as int
    ensures Colon(t) == |t|
  {
    if t != [] {
      NoColon(t[1..]);
    }
  }

  /** Bare digits are a SHA256 hash, and nothing else without a colon means
      anything. */
  lemma PlainMeaning(t: seq<WChar>, hashMethod: nat, hashsz: nat, bytes: seq<Byte>)
    requires forall i :: 0 <= i < |t| ==> t[i] != 58
    ensures Meaning(t) == Some(Hash(hashMethod, hashsz, bytes)) <==> hashMethod == 2 && hashsz == 32 && Writes(t, bytes)
  {
    hide Writes;
    NoColon(t);
    WritesIs(t, bytes);
  }

  /** A name, a colon and digits mean a hash by that method exactly if the name is
      one of the ten, in any case, and the digits are digits. */
  lemma NamedMeaning(prefix: seq<WChar>, rest: seq<WChar>, hashMethod: nat, hashsz: nat, bytes: seq<Byte>)
    requires forall i :: 0 <= i < |prefix| ==> prefix[i] != 58
    ensures Meaning(prefix + [58] + rest) == Some(Hash(hashMethod, hashsz, bytes)) <==>
      TenNames(prefix, hashMethod, hashsz) && Writes(rest, bytes)
  {
    hide Lookup, Names, TenNames, Writes, UpperAll;
    var t := prefix + [58] + rest;
    ColonAfter(prefix, rest);
    WritesIs(rest, bytes);
    TableIs(prefix, hashMethod, hashsz);
    assert t[..|prefix|] == prefix && t[|prefix| + 1..] == rest;
  }
}
