/** Allocation bitmaps: one bit a block, least significant bit first, set when the block is used. */
module Bitmap {
  import opened Bytes

  /** `b & (1 << k) != 0`. */
  predicate HasBit(b: nat, k: nat) {
    if k == 0 then b % 2 == 1 else HasBit(b / 2, k - 1)
  }

  /** `b | (1 << k)`, or `b & !(1 << k)`, in a number of `n` bits. */
  function WithBit(b: nat, n: nat, k: nat, on: bool): (r: nat)
    requires k < n && b < Pow2(n)
    ensures r < Pow2(n)
    decreases k
  {
    if k == 0 then b - b % 2 + (if on then 1 else 0)
    else 2 * WithBit(b / 2, n - 1, k - 1, on) + b % 2
  }

  /** Writing one bit of a number changes that bit and no other. */
  lemma {:induction false} WithBitAt(b: nat, n: nat, j: nat, on: bool, k: nat)
    requires j < n && b < Pow2(n)
    ensures HasBit(WithBit(b, n, j, on), k) <==> if k == j then on else HasBit(b, k)
    decreases j
  {
    if j > 0 && k > 0 {
      WithBitAt(b / 2, n - 1, j - 1, on, k - 1);
    }
  }

  /** `bm[i / 8]` with bit `i % 8` written. */
  function WithByteBit(b: Byte, k: nat, on: bool): (r: Byte)
    requires k < OCTET
  {
    assert Pow2(8) == 256 by {
      assert Pow2(4) == 16;
    }
    WithBit(b, OCTET, k, on)
  }

  const OCTET: nat := 8

  predicate Bit(bm: seq<Byte>, i: nat)
    requires i / 8 < |bm|
  {
    HasBit(bm[i / 8], i % 8)
  }

  function PutBit(bm: seq<Byte>, i: nat, on: bool): (r: seq<Byte>)
    requires i / 8 < |bm|
    ensures |r| == |bm|
  {
    bm[i / 8 := WithByteBit(bm[i / 8], i % 8, on)]
  }

  /** Writing one bit changes that bit and no other. */
  lemma PutBitAt(bm: seq<Byte>, i: nat, on: bool, k: nat)
    requires i / 8 < |bm| && k / 8 < |bm|
    ensures Bit(PutBit(bm, i, on), k) <==> if k == i then on else Bit(bm, k)
  {
    hide HasBit, WithBit;
    assert Pow2(8) == 256 by {
      assert Pow2(4) == 16;
    }
    WithBitAt(bm[i / 8], OCTET, i % 8, on, k % 8);
    assert k == i <==> k / 8 == i / 8 && k % 8 == i % 8;
  }

  /** The number of clear bits among the first `n`. */
  function ZeroBits(bm: seq<Byte>, n: nat): (z: nat)
    requires n <= 8 * |bm|
    ensures z <= n
  {
    if n == 0 then 0 else ZeroBits(bm, n - 1) + if Bit(bm, n - 1) then 0 else 1
  }

  /** Turning a bit over moves the count by one, if the bit is counted at all. */
  lemma {:induction false} ZeroBitsPut(bm: seq<Byte>, i: nat, on: bool, n: nat)
    requires i / 8 < |bm| && n <= 8 * |bm| && Bit(bm, i) != on
    ensures ZeroBits(PutBit(bm, i, on), n) == ZeroBits(bm, n) + if i >= n then 0 else if on then -1 else 1
  {
    hide Bit, PutBit;
    if n > 0 {
      ZeroBitsPut(bm, i, on, n - 1);
      PutBitAt(bm, i, on, n - 1);
    }
  }

  lemma {:induction false} NoZeroBits(bm: seq<Byte>, n: nat)
    requires n <= 8 * |bm|
    ensures ZeroBits(bm, n) == 0 <==> forall k: nat :: k < n ==> Bit(bm, k)
  {
    hide Bit;
    if n > 0 {
      NoZeroBits(bm, n - 1);
    }
  }

  /** A bitmap with exactly the bits from `lo` to `hi` clear. */
  lemma {:induction false} ZeroBitsRange(bm: seq<Byte>, lo: nat, hi: nat, n: nat)
    requires lo <= hi && n <= 8 * |bm| && forall k: nat :: k < n ==> (Bit(bm, k) <==> !(lo <= k < hi))
    ensures ZeroBits(bm, n) == if n <= lo then 0 else if n <= hi then n - lo else hi - lo
  {
    hide Bit;
    if n > 0 {
      ZeroBitsRange(bm, lo, hi, n - 1);
    }
  }
}
