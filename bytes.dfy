/** Bytes, ASCII strings and fixed-width integer encodings shared by the wire formats. */
module Bytes {

  type Byte = b: int | 0 <= b < 256

  /** Go's bytes.Contains / strings.Contains: `pat` occurs in `s` at some position. */
  predicate Contains<T(==)>(s: seq<T>, pat: seq<T>) {
    exists i | 0 <= i <= |s| - |pat| :: OccursAt(s, pat, i)
  }

  predicate OccursAt<T(==)>(s: seq<T>, pat: seq<T>, i: int) {
    0 <= i <= |s| - |pat| && s[i..i + |pat|] == pat
  }

  predicate IsPrefix<T(==)>(pat: seq<T>, s: seq<T>) {
    |pat| <= |s| && s[..|pat|] == pat
  }

  /** A four-byte big-endian (network order) encoding of `n`. */
  function BigEndian32(n: nat): (r: seq<Byte>)
    requires n < 0x1_0000_0000
    ensures |r| == 4
    ensures ReadBigEndian32(r) == n
  {
    var q1 := n / 256;
    var q2 := q1 / 256;
    assert q1 * 256 + n % 256 == n;
    assert q2 * 256 + q1 % 256 == q1;
    [q2 / 256, q2 % 256, q1 % 256, n % 256]
  }

  function ReadBigEndian32(b: seq<Byte>): (n: nat)
    requires |b| == 4
    ensures n < 0x1_0000_0000
  {
    ((b[0] as int * 256 + b[1]) * 256 + b[2]) * 256 + b[3]
  }

  /** An eight-byte little-endian encoding of `n` (struct.pack "Q" on x86-64). */
  function LittleEndian64(n: nat): (r: seq<Byte>)
    requires n < 0x1_0000_0000_0000_0000
    ensures |r| == 8
    ensures ReadLittleEndian(r) == n
  {
    LittleEndianN(n, 8)
  }

  function Pow256(k: nat): (p: nat)
    ensures p > 0
  {
    if k == 0 then 1 else 256 * Pow256(k - 1)
  }

  function LittleEndianN(n: nat, k: nat): (r: seq<Byte>)
    requires n < Pow256(k)
    ensures |r| == k
    ensures ReadLittleEndian(r) == n
  {
    if k == 0 then [] else [n % 256] + LittleEndianN(n / 256, k - 1)
  }

  function ReadLittleEndian(b: seq<Byte>): nat {
    if b == [] then 0 else b[0] + 256 * ReadLittleEndian(b[1..])
  }

  /** The UTF-8 encoding of one character. */
  function CharBytes(c: char): (r: seq<Byte>)
    ensures 1 <= |r| <= 4
    ensures !(0x80 <= r[0] < 0xC0)
    ensures forall j :: 1 <= j < |r| ==> 0x80 <= r[j] < 0xC0
    ensures c as int < 0x80 ==> r == [c as int]
    ensures c as int >= 0x80 ==> r[0] >= 0xC0 && |r| >= 2
  {
    var n := c as int;
    if n < 0x80 then [n]
    else if n < 0x800 then [0xC0 + n / 0x40, 0x80 + n % 0x40]
    else if n < 0x1_0000 then [0xE0 + n / 0x1000, 0x80 + (n / 0x40) % 0x40, 0x80 + n % 0x40]
    else [0xF0 + n / 0x4_0000, 0x80 + (n / 0x1000) % 0x40, 0x80 + (n / 0x40) % 0x40, 0x80 + n % 0x40]
  }

  /** The UTF-8 bytes of a string (Rust's `as_bytes`, Go's `[]byte(s)`). */
  function Utf8(s: string): (r: seq<Byte>)
    ensures (forall j :: 0 <= j < |s| ==> s[j] as int < 0x80) ==> |r| == |s| && forall j :: 0 <= j < |s| ==> r[j] == s[j] as int
  {
    if s == [] then [] else CharBytes(s[0]) + Utf8(s[1..])
  }
}
