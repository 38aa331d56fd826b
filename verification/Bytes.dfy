/** Bytes, 4096-byte blocks and the little-endian fields the on-disk formats are made of. */
module Bytes {
  type Byte = b: int | 0 <= b < 256

  const BLOCK: nat := 4096
  const SECTOR: nat := 512
  const U32_LIMIT: nat := 0x1_0000_0000

  function Pow2(n: nat): (p: nat)
    ensures p >= 1
  {
    if n == 0 then 1 else 2 * Pow2(n - 1)
  }

  /** One 4096-byte disk block. */
  type Block = s: seq<Byte> | |s| == 4096 witness seq(4096, _ => 0)

  function Zeros(n: nat): (s: seq<Byte>)
    ensures |s| == n && forall i :: 0 <= i < n ==> s[i] == 0
  {
    if n == 0 then [] else Zeros(n - 1) + [0]
  }

  const ZERO_BLOCK: Block := Zeros(BLOCK)

  function R16(b: seq<Byte>, o: nat): (v: nat)
    requires o + 2 <= |b|
    ensures v < 0x1_0000
  {
    b[o] as int + 256 * b[o + 1] as int
  }

  function R32(b: seq<Byte>, o: nat): (v: nat)
    requires o + 4 <= |b|
    ensures v < U32_LIMIT
  {
    b[o] as int + 256 * b[o + 1] as int + 65536 * b[o + 2] as int + 16777216 * b[o + 3] as int
  }

  function W16(b: seq<Byte>, o: nat, v: nat): (r: seq<Byte>)
    requires o + 2 <= |b| && v < 0x1_0000
    ensures |r| == |b|
    ensures forall i :: 0 <= i < |b| && !(o <= i < o + 2) ==> r[i] == b[i]
    ensures R16(r, o) == v
  {
    b[o := v % 256][o + 1 := v / 256]
  }

  function W32(b: seq<Byte>, o: nat, v: nat): (r: seq<Byte>)
    requires o + 4 <= |b| && v < U32_LIMIT
    ensures |r| == |b|
    ensures forall i :: 0 <= i < |b| && !(o <= i < o + 4) ==> r[i] == b[i]
    ensures R32(r, o) == v
  {
    LittleEndian(v);
    b[o := v % 256][o + 1 := v / 256 % 256][o + 2 := v / 65536 % 256][o + 3 := v / 16777216]
  }

  lemma LittleEndian(v: nat)
    requires v < U32_LIMIT
    ensures v == v % 256 + 256 * (v / 256 % 256) + 65536 * (v / 65536 % 256) + 16777216 * (v / 16777216)
    ensures v / 16777216 < 256
  {
    var a, b := v / 256, v / 65536;
    assert a / 256 == b && b / 256 == v / 16777216;
    assert v == v % 256 + 256 * a && a == a % 256 + 256 * b && b == b % 256 + 256 * (b / 256);
  }
}
