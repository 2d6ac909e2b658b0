/** The trailer of a part file, byte by byte. */
module Overlay {
  import opened Rotations

  // ----- little-endian integers --------------------------------------------

  function Pow256(n: nat): (p: nat)
    ensures p >= 1
  {
    if n == 0 then 1 else 256 * Pow256(n - 1)
  }

  function LittleEndian(v: nat, n: nat): (s: seq<Byte>)
    ensures |s| == n
  {
    if n == 0 then [] else [(v % 256) as Byte] + LittleEndian(v / 256, n - 1)
  }

  function Value(s: seq<Byte>): nat {
    if s == [] then 0 else s[0] + 256 * Value(s[1..])
  }

  lemma {:induction false} LittleEndianValue(v: nat, n: nat)
    requires v < Pow256(n)
    ensures Value(LittleEndian(v, n)) == v
  {
    if n > 0 {
      LittleEndianValue(v / 256, n - 1);
      assert LittleEndian(v, n)[1..] == LittleEndian(v / 256, n - 1);
    }
  }

  lemma {:induction false} ValueLittleEndian(s: seq<Byte>)
    ensures Value(s) < Pow256(|s|) && LittleEndian(Value(s), |s|) == s
  {
    if s != [] {
      ValueLittleEndian(s[1..]);
      assert Value(s) % 256 == s[0] && Value(s) / 256 == Value(s[1..]);
      assert s == [s[0]] + s[1..];
    }
  }

  const INT64_MAX := 0x7FFF_FFFF_FFFF_FFFF
  const TWO64 := 0x1_0000_0000_0000_0000

  predicate IsInt64(v: int) {
    -INT64_MAX - 1 <= v <= INT64_MAX
  }

  /** An int64_t as its eight bytes. */
  function Int64Bytes(v: int): (s: seq<Byte>)
    requires IsInt64(v)
    ensures |s| == 8
  {
    LittleEndian(if v < 0 then v + TWO64 else v, 8)
  }

  function Int64Of(s: seq<Byte>): int {
    var v := Value(s);
    if v > INT64_MAX then v - TWO64 else v
  }

  lemma Pow256Eight()
    ensures Pow256(8) == TWO64 && Pow256(2) == 65536
  {
    assert Pow256(4) == 0x1_0000_0000;
    assert Pow256(8) == 256 * (256 * (256 * (256 * Pow256(4))));
  }

  lemma Int64RoundTrip(v: int)
    requires IsInt64(v)
    ensures Int64Of(Int64Bytes(v)) == v
  {
    Pow256Eight();
    LittleEndianValue(if v < 0 then v + TWO64 else v, 8);
  }

  lemma Int64RoundBack(s: seq<Byte>)
    requires |s| == 8
    ensures IsInt64(Int64Of(s)) && Int64Bytes(Int64Of(s)) == s
  {
    Pow256Eight();
    ValueLittleEndian(s);
  }

  // ----- the record --------------------------------------------------------

  /** part_overlay_data */
  datatype Data = Data(magic: seq<Byte>, hashMethod: nat, hashsz: nat, hash: seq<Byte>, totalBytes: int,
      currentBytes: int, lasteTime: int) {
    predicate Valid() {
      && |magic| == 4 && hashMethod < 65536 && hashsz < 65536 && |hash| == 64
      && IsInt64(totalBytes) && IsInt64(currentBytes) && IsInt64(lasteTime)
    }
  }

  /** sizeof(part_overlay_data), packed */
  const SIZE := 96

  function Encode(d: Data): (s: seq<Byte>)
    requires d.Valid()
    ensures |s| == SIZE
  {
    d.magic + LittleEndian(d.hashMethod, 2) + LittleEndian(d.hashsz, 2) + d.hash
      + Int64Bytes(d.totalBytes) + Int64Bytes(d.currentBytes) + Int64Bytes(d.lasteTime)
  }

  function Decode(s: seq<Byte>): Data
    requires |s| == SIZE
  {
    Data(s[..4], Value(s[4..6]), Value(s[6..8]), s[8..72], Int64Of(s[72..80]), Int64Of(s[80..88]), Int64Of(s[88..96]))
  }

  lemma Slices(m: seq<Byte>, a: seq<Byte>, b: seq<Byte>, h: seq<Byte>, t: seq<Byte>, c: seq<Byte>, l: seq<Byte>)
    requires |m| == 4 && |a| == 2 && |b| == 2 && |h| == 64 && |t| == 8 && |c| == 8 && |l| == 8
    ensures var s := m + a + b + h + t + c + l;
      |s| == SIZE && s[..4] == m && s[4..6] == a && s[6..8] == b && s[8..72] == h && s[72..80] == t && s[80..88] == c
        && s[88..96] == l
  {
  }

  /** What is written is what is read. */
  lemma RoundTrip(d: Data)
    requires d.Valid()
    ensures Decode(Encode(d)) == d
  {
    Pow256Eight();
    LittleEndianValue(d.hashMethod, 2);
    LittleEndianValue(d.hashsz, 2);
    Int64RoundTrip(d.totalBytes);
    Int64RoundTrip(d.currentBytes);
    Int64RoundTrip(d.lasteTime);
    hide LittleEndian, Int64Bytes, Value, Int64Of;
    Slices(d.magic, LittleEndian(d.hashMethod, 2), LittleEndian(d.hashsz, 2), d.hash,
      Int64Bytes(d.totalBytes), Int64Bytes(d.currentBytes), Int64Bytes(d.lasteTime));
  }

  /** Every record is the bytes of what it says. */
  lemma RoundBack(s: seq<Byte>)
    requires |s| == SIZE
    ensures Decode(s).Valid() && Encode(Decode(s)) == s
  {
    Pow256Eight();
    ValueLittleEndian(s[4..6]);
    ValueLittleEndian(s[6..8]);
    Int64RoundBack(s[72..80]);
    Int64RoundBack(s[80..88]);
    Int64RoundBack(s[88..96]);
    hide LittleEndian, Int64Bytes, Value, Int64Of;
    assert s == s[..4] + s[4..6] + s[6..8] + s[8..72] + s[72..80] + s[80..88] + s[88..96];
  }

  // ----- the layout --------------------------------------------------------

  lemma TwoBytes(s: seq<Byte>)
    requires |s| == 2
    ensures Value(s) == s[0] + 0x100 * (s[1] as int)
  {
    assert Value(s[1..]) == s[1] + 256 * Value(s[1..][1..]);
  }

  lemma FourBytes(s: seq<Byte>)
    requires |s| >= 4
    ensures Value(s) == s[0] + 0x100 * (s[1] as int) + 0x1_0000 * (s[2] as int) + 0x100_0000 * (s[3] as int)
      + 0x1_0000_0000 * Value(s[4..])
  {
    assert s[1..][1..] == s[2..] && s[2..][1..] == s[3..] && s[3..][1..] == s[4..];
    assert Value(s[3..]) == s[3] + 256 * Value(s[4..]);
    assert Value(s[2..]) == s[2] + 256 * Value(s[3..]);
    assert Value(s[1..]) == s[1] + 256 * Value(s[2..]);
  }

  /** The number eight bytes stand for, the low byte first. */
  function Number64(s: seq<Byte>, at: nat): int
    requires at + 8 <= |s|
  {
    (s[at] as int) + 0x100 * (s[at + 1] as int) + 0x1_0000 * (s[at + 2] as int) + 0x100_0000 * (s[at + 3] as int)
      + 0x1_0000_0000 * (s[at + 4] as int) + 0x100_0000_0000 * (s[at + 5] as int) + 0x1_0000_0000_0000 * (s[at + 6] as int)
      + 0x100_0000_0000_0000 * (s[at + 7] as int)
  }

  lemma EightBytes(s: seq<Byte>, at: nat)
    requires at + 8 <= |s|
    ensures Value(s[at..at + 8]) == Number64(s, at)
  {
    var t := s[at..at + 8];
    FourBytes(t);
    FourBytes(t[4..]);
    assert t[4..][4..] == [];
  }

  /** A signed number as its 64 bits. */
  function Bits64(v: int): int {
    if v < 0 then v + 0x1_0000_0000_0000_0000 else v
  }

  /** Where the fields are: nothing between them, the low byte of a number first. */
  lemma Layout(d: Data)
    requires d.Valid()
    ensures var s := Encode(d);
      && s[..4] == d.magic && s[8..72] == d.hash
      && d.hashMethod == s[4] + 0x100 * (s[5] as int) && d.hashsz == s[6] + 0x100 * (s[7] as int)
      && Bits64(d.totalBytes) == Number64(s, 72) && Bits64(d.currentBytes) == Number64(s, 80)
      && Bits64(d.lasteTime) == Number64(s, 88)
  {
    var s := Encode(d);
    Pow256Eight();
    LittleEndianValue(d.hashMethod, 2);
    LittleEndianValue(d.hashsz, 2);
    LittleEndianValue(Bits64(d.totalBytes), 8);
    LittleEndianValue(Bits64(d.currentBytes), 8);
    LittleEndianValue(Bits64(d.lasteTime), 8);
    TwoBytes(s[4..6]);
    TwoBytes(s[6..8]);
    EightBytes(s, 72);
    EightBytes(s, 80);
    EightBytes(s, 88);
    hide LittleEndian, Value, Number64;
    Slices(d.magic, LittleEndian(d.hashMethod, 2), LittleEndian(d.hashsz, 2), d.hash,
      Int64Bytes(d.totalBytes), Int64Bytes(d.currentBytes), Int64Bytes(d.lasteTime));
  }
}
