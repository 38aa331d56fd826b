/** CRC32C (Castagnoli), reflected, bit by bit, without the final xor.
    The u32 register is modelled by its 32 bits, least significant first. */
module Crc {
  import opened Bytes

  type Bits = seq<bool>

  type Word = w: Bits | |w| == 32 witness seq(32, _ => false)

  /** Bits in a byte. */
  const OCTET: nat := 8

  /** The reflected polynomial. */
  const POLY_VALUE: nat := 0x82F6_3B78
  const WIDTH: nat := 32
  const POLY: Word := BitsOf(POLY_VALUE, WIDTH)

  /** The usual initial value, all ones. */
  const ONES_VALUE: nat := 0xFFFF_FFFF
  const ONES: Word := BitsOf(ONES_VALUE, WIDTH)

  /** The number a bit sequence stands for. */
  function Value(w: Bits): (v: nat)
    decreases |w|
  {
    if w == [] then 0 else (if w[0] then 1 else 0) + 2 * Value(w[1..])
  }

  /** The low `n` bits of a number. */
  function BitsOf(v: nat, n: nat): (w: Bits)
    ensures |w| == n
    ensures v < Pow2(n) ==> Value(w) == v
    decreases n
  {
    if n == 0 then [] else [v % 2 == 1] + BitsOf(v / 2, n - 1)
  }

  lemma {:induction false} ValueBound(w: Bits)
    ensures Value(w) < Pow2(|w|)
    decreases |w|
  {
    if w != [] {
      ValueBound(w[1..]);
    }
  }

  /** A register is determined by its number. */
  lemma {:induction false} ValueInjective(v: Bits, w: Bits)
    requires |v| == |w| && Value(v) == Value(w)
    ensures v == w
    decreases |v|
  {
    if v != [] {
      ValueInjective(v[1..], w[1..]);
      assert v == [v[0]] + v[1..] && w == [w[0]] + w[1..];
    }
  }

  lemma {:induction false} Pow2Sum(a: nat, b: nat)
    ensures Pow2(a + b) == Pow2(a) * Pow2(b)
  {
    if a > 0 {
      Pow2Sum(a - 1, b);
    }
  }

  /** Without its top bit a number is small. */
  lemma {:induction false} NoTopBit(w: Bits)
    requires w != [] && !w[|w| - 1]
    ensures Value(w) < Pow2(|w| - 1)
    decreases |w|
  {
    if |w| > 1 {
      NoTopBit(w[1..]);
    }
  }

  lemma Pow2Values()
    ensures Pow2(31) == 0x8000_0000 && Pow2(32) == 0x1_0000_0000
  {
    var k := OCTET;
    assert Pow2(8) == 256;
    Pow2Sum(k, k);
    assert Pow2(2 * k) == 0x1_0000;
    Pow2Sum(2 * k, 2 * k);
    assert Pow2(4 * k) == 2 * Pow2(4 * k - 1);
  }

  /** The register as a u32. */
  function Number(w: Word): (v: nat)
    ensures v < U32_LIMIT
  {
    ValueBound(w);
    Pow2Values();
    Value(w)
  }

  lemma PolyTopBit()
    ensures POLY[31]
  {
    Pow2Values();
    if !POLY[31] {
      NoTopBit(POLY);
    }
  }

  /** The Castagnoli polynomial, section 12.1 of RFC 3720, most significant coefficient first. */
  const CASTAGNOLI: nat := 0x1EDC_6F41

  lemma {:induction false} ValueConcat(a: Bits, b: Bits)
    ensures Value(a + b) == Value(a) + Pow2(|a|) * Value(b)
    decreases |a|
  {
    if a == [] {
      assert a + b == b;
    } else {
      ValueConcat(a[1..], b);
      assert (a + b)[1..] == a[1..] + b && (a + b)[0] == a[0];
      var p, v := Pow2(|a| - 1), Value(b);
      assert Value(a + b) == Bit(a[0]) + 2 * Value(a[1..] + b);
      assert Value(a) == Bit(a[0]) + 2 * Value(a[1..]);
      Doubled(p, v);
    }
  }

  lemma Doubled(p: nat, v: nat)
    ensures 2 * (p * v) == (2 * p) * v
  {
  }

  lemma ValueOfByte(a: Bits, rest: Bits)
    requires |a| == 8
    ensures Value(a + rest) == Value(a) + 0x100 * Value(rest)
  {
    hide Value;
    assert Pow2(8) == 256;
    ValueConcat(a, rest);
  }

  function Bit(x: bool): nat { if x then 1 else 0 }

  lemma ValueOfFour(w: Bits)
    requires |w| == 4
    ensures Value(w) == Bit(w[0]) + 2 * Bit(w[1]) + 4 * Bit(w[2]) + 8 * Bit(w[3])
  {
    assert w[1..][1..] == w[2..] && w[2..][1..] == w[3..] && w[3..][1..] == [];
    assert Value(w[3..]) == Bit(w[3]);
    assert Value(w[2..]) == Bit(w[2]) + 2 * Value(w[3..]);
    assert Value(w[1..]) == Bit(w[1]) + 2 * Value(w[2..]);
  }

  lemma ValueOfEight(w: Bits)
    requires |w| == 8
    ensures Value(w) == Bit(w[0]) + 2 * Bit(w[1]) + 4 * Bit(w[2]) + 8 * Bit(w[3])
                     + 16 * (Bit(w[4]) + 2 * Bit(w[5]) + 4 * Bit(w[6]) + 8 * Bit(w[7]))
  {
    hide Value;
    assert w == w[..4] + w[4..];
    ValueConcat(w[..4], w[4..]);
    ValueOfFour(w[..4]);
    ValueOfFour(w[4..]);
  }

  lemma ValueOfWord(a: Bits, b: Bits, c: Bits, e: Bits)
    requires |a| == |b| == |c| == |e| == 8
    ensures Value(a + b + c + e) == Value(a) + 0x100 * Value(b) + 0x1_0000 * Value(c) + 0x100_0000 * Value(e)
  {
    hide Value;
    Regroup(a, b, c, e);
    ValueOfByte(a, b + (c + e));
    ValueOfByte(b, c + e);
    ValueOfByte(c, e);
  }

  lemma Regroup(a: Bits, b: Bits, c: Bits, e: Bits)
    ensures a + b + c + e == a + (b + (c + e))
  {
  }

  /** The bits of a number are those with its value. */
  lemma BitsAre(w: Bits, v: nat)
    requires |w| == 32 && Value(w) == v
    ensures BitsOf(v, 32) == w
  {
    hide Value, BitsOf;
    ValueBound(w);
    ValueInjective(BitsOf(v, 32), w);
  }

  lemma PolyBits(a: Bits, b: Bits, c: Bits, e: Bits)
    requires a == [false, false, false, true, true, true, true, false]
    requires b == [true, true, false, true, true, true, false, false]
    requires c == [false, true, true, false, true, true, true, true]
    requires e == [false, true, false, false, false, false, false, true]
    ensures POLY == a + b + c + e
  {
    hide Value, BitsOf;
    ValueOfEight(a);
    ValueOfEight(b);
    ValueOfEight(c);
    ValueOfEight(e);
    ValueOfWord(a, b, c, e);
    BitsAre(a + b + c + e, POLY_VALUE);
  }

  lemma CastagnoliBits(a: Bits, b: Bits, c: Bits, e: Bits)
    requires a == [true, false, false, false, false, false, true, false]
    requires b == [true, true, true, true, false, true, true, false]
    requires c == [false, false, true, true, true, false, true, true]
    requires e == [false, true, true, true, true, false, false, false]
    ensures BitsOf(CASTAGNOLI, WIDTH) == a + b + c + e
  {
    hide Value, BitsOf;
    ValueOfEight(a);
    ValueOfEight(b);
    ValueOfEight(c);
    ValueOfEight(e);
    ValueOfWord(a, b, c, e);
    BitsAre(a + b + c + e, CASTAGNOLI);
  }

  /** The register's polynomial is that one, reflected. */
  lemma PolyIsCastagnoli()
    ensures forall i :: 0 <= i < 32 ==> POLY[i] == BitsOf(CASTAGNOLI, WIDTH)[31 - i]
  {
    hide BitsOf;
    PolyBits([false, false, false, true, true, true, true, false],
             [true, true, false, true, true, true, false, false],
             [false, true, true, false, true, true, true, true],
             [false, true, false, false, false, false, false, true]);
    CastagnoliBits([true, false, false, false, false, false, true, false],
                   [true, true, true, true, false, true, true, false],
                   [false, false, true, true, true, false, true, true],
                   [false, true, true, true, true, false, false, false]);
  }

  // ---- the register operations the source uses ----

  function Xor(a: Bits, b: Bits): (r: Bits)
    requires |a| == |b|
    ensures |r| == |a|
  {
    seq(|a|, i requires 0 <= i < |a| => a[i] != b[i])
  }

  function ShiftRight(c: Word): Word {
    c[1..] + [false]
  }

  function BitStep(c: Word): Word {
    if c[0] then Xor(ShiftRight(c), POLY) else ShiftRight(c)
  }

  function BitSteps(c: Word, n: nat): Word {
    if n == 0 then c else BitStep(BitSteps(c, n - 1))
  }

  /** The eight bits of a byte, least significant first. */
  function ByteBits(b: Byte): (w: Bits)
    ensures |w| == 8 && Value(w) == b
  {
    assert Pow2(8) == 256;
    BitsOf(b, OCTET)
  }

  /** A byte, widened to the register. */
  function Widen(b: Byte): (w: Word) {
    ByteBits(b) + seq(24, _ => false)
  }

  function ByteStep(c: Word, b: Byte): Word {
    BitSteps(Xor(c, Widen(b)), OCTET)
  }

  /** The register after feeding all of `data`: the specification of the loop below. */
  function Crc32c(init: Word, data: seq<Byte>): (c: Word)
    decreases |data|
  {
    if data == [] then init
    else ByteStep(Crc32c(init, data[..|data| - 1]), data[|data| - 1])
  }

  method ComputeCrc32c(init: Word, data: seq<Byte>) returns (c: Word)
    ensures c == Crc32c(init, data)
  {
    hide Crc32c, Xor, Widen;
    FedNothing(init);
    c := init;
    for i := 0 to |data|
      invariant c == Crc32c(init, data[..i])
    {
      ghost var before := Xor(c, Widen(data[i]));
      c := Xor(c, Widen(data[i]));
      for k := 0 to OCTET
        invariant c == BitSteps(before, k)
      {
        c := if c[0] then Xor(ShiftRight(c), POLY) else ShiftRight(c);
      }
      assert data[..i + 1][..i] == data[..i];
      LastByte(init, data[..i + 1]);
    }
    assert data[..|data|] == data;
  }

  lemma FedNothing(init: Word)
    ensures Crc32c(init, []) == init
  {
  }

  /** Feeding two buffers one after the other is feeding their concatenation. */
  lemma {:induction false} Chains(init: Word, a: seq<Byte>, b: seq<Byte>)
    ensures Crc32c(init, a + b) == Crc32c(Crc32c(init, a), b)
    decreases |b|
  {
    if b == [] {
      assert a + b == a;
    } else {
      var n := |b| - 1;
      assert (a + b)[..|a + b| - 1] == a + b[..n];
      Chains(init, a, b[..n]);
    }
  }

  // ---- xor-linearity ----

  function XorByte(a: Byte, b: Byte): (r: Byte) {
    var v := Value(Xor(ByteBits(a), ByteBits(b)));
    ValueBound(Xor(ByteBits(a), ByteBits(b)));
    assert Pow2(8) == 256;
    v
  }

  function XorBytes(a: seq<Byte>, b: seq<Byte>): (r: seq<Byte>)
    requires |a| == |b|
    ensures |r| == |a|
  {
    seq(|a|, i requires 0 <= i < |a| => XorByte(a[i], b[i]))
  }

  lemma BitStepAt(c: Word, i: nat)
    requires i < 32
    ensures BitStep(c)[i] == ((i < 31 && c[i + 1]) != (c[0] && POLY[i]))
  {
  }

  lemma BitStepLinear(c: Word, d: Word)
    ensures BitStep(Xor(c, d)) == Xor(BitStep(c), BitStep(d))
  {
    var l, r := BitStep(Xor(c, d)), Xor(BitStep(c), BitStep(d));
    forall i | 0 <= i < 32
      ensures l[i] == r[i]
    {
      BitStepAt(c, i);
      BitStepAt(d, i);
      BitStepAt(Xor(c, d), i);
    }
  }

  lemma {:induction false} BitStepsLinear(c: Word, d: Word, n: nat)
    ensures BitSteps(Xor(c, d), n) == Xor(BitSteps(c, n), BitSteps(d, n))
  {
    if n > 0 {
      BitStepsLinear(c, d, n - 1);
      BitStepLinear(BitSteps(c, n - 1), BitSteps(d, n - 1));
    }
  }

  lemma XorByteBits(a: Byte, b: Byte)
    ensures ByteBits(XorByte(a, b)) == Xor(ByteBits(a), ByteBits(b))
  {
    ValueInjective(ByteBits(XorByte(a, b)), Xor(ByteBits(a), ByteBits(b)));
  }

  lemma XorConcat(a: Bits, b: Bits, x: Bits, y: Bits)
    requires |a| == |b| && |x| == |y|
    ensures Xor(a + x, b + y) == Xor(a, b) + Xor(x, y)
  {
  }

  lemma WidenLinear(a: Byte, b: Byte)
    ensures Widen(XorByte(a, b)) == Xor(Widen(a), Widen(b))
  {
    var zero := seq(24, _ => false);
    XorByteBits(a, b);
    XorConcat(ByteBits(a), ByteBits(b), zero, zero);
    assert Xor(zero, zero) == zero;
  }

  lemma XorMix(w: Word, x: Word, y: Word, z: Word)
    ensures Xor(Xor(w, x), Xor(y, z)) == Xor(Xor(w, y), Xor(x, z))
  {
  }

  lemma ByteStepLinear(c: Word, d: Word, a: Byte, b: Byte)
    ensures ByteStep(Xor(c, d), XorByte(a, b)) == Xor(ByteStep(c, a), ByteStep(d, b))
  {
    WidenLinear(a, b);
    XorMix(c, d, Widen(a), Widen(b));
    BitStepsLinear(Xor(c, Widen(a)), Xor(d, Widen(b)), OCTET);
  }

  /** The last step of Crc32c, named so that proofs need not unfold it. */
  lemma LastByte(init: Word, data: seq<Byte>)
    requires data != []
    ensures Crc32c(init, data) == ByteStep(Crc32c(init, data[..|data| - 1]), data[|data| - 1])
  {
  }

  lemma XorBytesLast(a: seq<Byte>, b: seq<Byte>)
    requires |a| == |b| > 0
    ensures XorBytes(a, b)[..|a| - 1] == XorBytes(a[..|a| - 1], b[..|a| - 1])
    ensures XorBytes(a, b)[|a| - 1] == XorByte(a[|a| - 1], b[|a| - 1])
  {
    var n := |a| - 1;
    var l, r := XorBytes(a, b)[..n], XorBytes(a[..n], b[..n]);
    assert |l| == |r| && forall i :: 0 <= i < n ==> l[i] == r[i];
  }

  /** The checksum is xor-linear in the initial value and the data together. */
  lemma {:induction false} Linear(i: Word, j: Word, a: seq<Byte>, b: seq<Byte>)
    requires |a| == |b|
    ensures Crc32c(Xor(i, j), XorBytes(a, b)) == Xor(Crc32c(i, a), Crc32c(j, b))
    decreases |a|
  {
    if a != [] {
      var n := |a| - 1;
      var x := XorBytes(a, b);
      var c, d := Crc32c(i, a[..n]), Crc32c(j, b[..n]);
      calc {
        Crc32c(Xor(i, j), x);
        { LastByte(Xor(i, j), x); }
        ByteStep(Crc32c(Xor(i, j), x[..n]), x[n]);
        { XorBytesLast(a, b); Linear(i, j, a[..n], b[..n]); }
        ByteStep(Xor(c, d), XorByte(a[n], b[n]));
        { ByteStepLinear(c, d, a[n], b[n]); }
        Xor(ByteStep(c, a[n]), ByteStep(d, b[n]));
        { LastByte(i, a); LastByte(j, b); }
        Xor(Crc32c(i, a), Crc32c(j, b));
      }
    }
  }

  // ---- every step is a bijection ----

  /** The inverse of BitStep: the polynomial's top bit tells whether it was xored in. */
  function BitBack(d: Word): Word {
    if d[31] then [true] + Xor(d, POLY)[..31] else [false] + d[..31]
  }

  lemma XorTwice(c: Bits, d: Bits)
    requires |c| == |d|
    ensures Xor(Xor(c, d), d) == c
  {
  }

  lemma BitBackStep(c: Word)
    ensures BitBack(BitStep(c)) == c
  {
    var s := ShiftRight(c);
    assert s[..31] == c[1..];
    assert c == [c[0]] + c[1..];
    if c[0] {
      PolyTopBit();
      XorTwice(s, POLY);
    }
  }

  lemma BitStepBack(d: Word)
    ensures BitStep(BitBack(d)) == d
  {
    if d[31] {
      PolyTopBit();
      var x := Xor(d, POLY);
      XorTwice(d, POLY);
      assert ShiftRight(BitBack(d)) == x[..31] + [false] == x;
    } else {
      assert ShiftRight(BitBack(d)) == d[..31] + [false] == d;
    }
  }

  function BitsBack(c: Word, n: nat): Word
    decreases n
  {
    if n == 0 then c else BitsBack(BitBack(c), n - 1)
  }

  lemma {:induction false} BitStepsBijective(c: Word, n: nat)
    ensures BitsBack(BitSteps(c, n), n) == c && BitSteps(BitsBack(c, n), n) == c
    decreases n
  {
    hide BitStep, BitBack;
    if n > 0 {
      BitStepsBijective(c, n - 1);
      BitBackStep(BitSteps(c, n - 1));
      BitStepsBijective(BitBack(c), n - 1);
      BitStepBack(c);
    }
  }

  /** For a fixed byte, ByteStep has a two-sided inverse on the 32-bit states. */
  lemma ByteStepBijective(c: Word, b: Byte)
    ensures Xor(BitsBack(ByteStep(c, b), OCTET), Widen(b)) == c
    ensures ByteStep(Xor(BitsBack(c, OCTET), Widen(b)), b) == c
  {
    BitStepsBijective(Xor(c, Widen(b)), OCTET);
    XorTwice(c, Widen(b));
    XorTwice(BitsBack(c, OCTET), Widen(b));
    BitStepsBijective(c, OCTET);
  }

  /** Different registers stay different, whatever is fed to both. */
  lemma {:induction false} StaysDifferent(i: Word, j: Word, data: seq<Byte>)
    requires i != j
    ensures Crc32c(i, data) != Crc32c(j, data)
    decreases |data|
  {
    if data != [] {
      var n := |data| - 1;
      StaysDifferent(i, j, data[..n]);
      ByteStepBijective(Crc32c(i, data[..n]), data[n]);
      ByteStepBijective(Crc32c(j, data[..n]), data[n]);
    }
  }

  lemma XorCancels(c: Bits, x: Bits, y: Bits)
    requires |c| == |x| == |y| && Xor(c, x) == Xor(c, y)
    ensures x == y
  {
    forall i | 0 <= i < |x|
      ensures x[i] == y[i]
    {
      assert Xor(c, x)[i] == Xor(c, y)[i];
    }
  }

  lemma WidenInjective(a: Byte, b: Byte)
    requires Widen(a) == Widen(b)
    ensures a == b
  {
    assert Widen(a)[..8] == ByteBits(a) && Widen(b)[..8] == ByteBits(b);
  }

  lemma DifferentByte(c: Word, a: Byte, b: Byte)
    requires a != b
    ensures ByteStep(c, a) != ByteStep(c, b)
  {
    if ByteStep(c, a) == ByteStep(c, b) {
      BitStepsBijective(Xor(c, Widen(a)), OCTET);
      BitStepsBijective(Xor(c, Widen(b)), OCTET);
      XorCancels(c, Widen(a), Widen(b));
      WidenInjective(a, b);
    }
  }

  /** Changing exactly one byte, anywhere, always changes the checksum. */
  lemma OneByteChangeDetected(init: Word, data: seq<Byte>, p: nat, b: Byte)
    requires p < |data| && data[p] != b
    ensures Crc32c(init, data[p := b]) != Crc32c(init, data)
  {
    var head, tail := data[..p], data[p + 1..];
    assert data == head + ([data[p]] + tail);
    assert data[p := b] == head + ([b] + tail);
    var c := Crc32c(init, head);
    Chains(init, head, [data[p]] + tail);
    Chains(init, head, [b] + tail);
    Chains(c, [data[p]], tail);
    Chains(c, [b], tail);
    assert [data[p]][..0] == [] && [b][..0] == [];
    assert Crc32c(c, [data[p]]) == ByteStep(c, data[p]);
    assert Crc32c(c, [b]) == ByteStep(c, b);
    DifferentByte(c, data[p], b);
    StaysDifferent(ByteStep(c, b), ByteStep(c, data[p]), tail);
  }

  // ---- four bytes reach every state ----

  function Zeros(n: nat): (z: Bits)
    ensures |z| == n && forall i :: 0 <= i < n ==> !z[i]
  {
    seq(n, _ => false)
  }

  /** The bits of up to four bytes, widened to the register. */
  function Pack(data: seq<Byte>): (w: Word)
    requires |data| <= 4
    decreases |data|
  {
    if data == [] then Zeros(32) else ByteBits(data[0]) + Pack(data[1..])[..24]
  }

  lemma {:induction false} StepsAdd(c: Word, m: nat, n: nat)
    ensures BitSteps(c, m + n) == BitSteps(BitSteps(c, m), n)
    decreases n
  {
    if n > 0 {
      StepsAdd(c, m, n - 1);
    }
  }

  /** Zero bits at the low end are just shifted out. */
  lemma {:induction false} ShiftedOut(u: Bits, n: nat)
    requires |u| + n <= 32
    ensures BitSteps(Zeros(n) + u + Zeros(32 - n - |u|), n) == u + Zeros(32 - |u|)
    decreases n
  {
    var w := Zeros(n) + u + Zeros(32 - n - |u|);
    if n > 0 {
      assert BitStep(w) == Zeros(n - 1) + u + Zeros(33 - n - |u|);
      StepsAdd(w, 1, n - 1);
      assert BitSteps(w, 1) == BitStep(BitSteps(w, 0));
      ShiftedOut(u, n - 1);
    } else {
      assert w == u + Zeros(32 - |u|);
    }
  }

  lemma {:induction false} PackTail(data: seq<Byte>)
    requires |data| <= 4
    ensures forall i :: 8 * |data| <= i < 32 ==> !Pack(data)[i]
    decreases |data|
  {
    if data != [] {
      PackTail(data[1..]);
    }
  }

  /** The first byte meets the low end of the register, the others wait above it. */
  lemma PackSplit(c: Word, x: Byte, rest: seq<Byte>)
    requires |rest| < 4
    ensures Xor(c, Pack([x] + rest)) == Xor(Xor(c, Widen(x)), Zeros(8) + Pack(rest)[..24])
  {
    hide ByteBits, Pack;
    assert ([x] + rest)[1..] == rest;
    PackCons([x] + rest);
  }

  lemma PackCons(data: seq<Byte>)
    requires 0 < |data| <= 4
    ensures Pack(data) == ByteBits(data[0]) + Pack(data[1..])[..24]
  {
  }

  lemma PackShifted(rest: seq<Byte>)
    requires |rest| < 4
    ensures BitSteps(Zeros(8) + Pack(rest)[..24], OCTET) == Pack(rest)
  {
    hide BitSteps, Pack;
    var u := Pack(rest)[..24];
    PackTail(rest);
    ShiftedOut(u, OCTET);
    assert Zeros(8) + u + Zeros(0) == Zeros(8) + u && u + Zeros(8) == Pack(rest);
  }

  /** Bytes can be fed one by one or all at once. */
  lemma {:induction false} FedAtOnce(c: Word, data: seq<Byte>)
    requires |data| <= 4
    ensures Crc32c(c, data) == BitSteps(Xor(c, Pack(data)), OCTET * |data|)
    decreases |data|
  {
    if data == [] {
      assert Xor(c, Zeros(32)) == c;
    } else {
      var x, rest := data[0], data[1..];
      FedFirst(c, x, rest);
      FedAtOnce(ByteStep(c, x), rest);
      assert data == [x] + rest;
    }
  }

  lemma FedFirst(c: Word, x: Byte, rest: seq<Byte>)
    requires |rest| < 4
    ensures BitSteps(Xor(c, Pack([x] + rest)), OCTET * (1 + |rest|)) ==
            BitSteps(Xor(ByteStep(c, x), Pack(rest)), OCTET * |rest|)
    ensures Crc32c(c, [x] + rest) == Crc32c(ByteStep(c, x), rest)
  {
    hide Pack, BitSteps, Crc32c, Xor, ByteStep;
    OneByte(c, x);
    FirstSteps(c, x, rest);
    Chains(c, [x], rest);
    StepsAdd(Xor(c, Pack([x] + rest)), OCTET, OCTET * |rest|);
  }

  lemma OneByte(c: Word, x: Byte)
    ensures Crc32c(c, [x]) == ByteStep(c, x)
  {
    hide ByteStep;
    assert [x][..0] == [];
    LastByte(c, [x]);
  }

  lemma FirstSteps(c: Word, x: Byte, rest: seq<Byte>)
    requires |rest| < 4
    ensures BitSteps(Xor(c, Pack([x] + rest)), OCTET) == Xor(ByteStep(c, x), Pack(rest))
  {
    hide Pack, BitSteps, Xor, Widen, Zeros;
    var high: Word := Zeros(8) + Pack(rest)[..24];
    PackSplit(c, x, rest);
    PackShifted(rest);
    BitStepsLinear(Xor(c, Widen(x)), high, OCTET);
  }

  function ByteAt(w: Word, i: nat): (b: Byte)
    requires i < 4
    ensures ByteBits(b) == w[8 * i..8 * i + 8]
  {
    var v := w[8 * i..8 * i + 8];
    ValueBound(v);
    assert Pow2(8) == 256;
    ValueInjective(ByteBits(Value(v)), v);
    Value(v)
  }

  /** The bytes of a register from byte `i` on. */
  function BytesFrom(w: Word, i: nat): (data: seq<Byte>)
    requires i <= 4
    ensures |data| == 4 - i
    decreases 4 - i
  {
    if i == 4 then [] else [ByteAt(w, i)] + BytesFrom(w, i + 1)
  }

  lemma {:induction false} PackBytes(w: Word, i: nat)
    requires i <= 4
    ensures Pack(BytesFrom(w, i)) == w[8 * i..] + Zeros(8 * i)
    decreases 4 - i
  {
    hide ByteAt, ByteBits;
    if i < 4 {
      PackBytes(w, i + 1);
      PackCons(BytesFrom(w, i));
      hide Pack;
      assert w[8 * i..] == w[8 * i..8 * i + 8] + w[8 * i + 8..];
    }
  }

  /** From every state, four bytes lead to any other: every checksum can be forged. */
  lemma FourBytesReach(c: Word, to: Word) returns (data: seq<Byte>)
    ensures |data| == 4 && Crc32c(c, data) == to
  {
    hide BitSteps, BitsBack, Pack, Crc32c;
    var back := BitsBack(to, 32);
    var w := Xor(c, back);
    data := BytesFrom(w, 0);
    PackBytes(w, 0);
    assert Pack(data) == w;
    FedAtOnce(c, data);
    XorBack(c, back);
    BitStepsBijective(to, 32);
  }

  lemma XorBack(c: Bits, d: Bits)
    requires |c| == |d|
    ensures Xor(c, Xor(c, d)) == d
  {
  }

  // ---- bursts ----

  /** The first byte and the rest can be read off the register. */
  lemma PackParts(x: seq<Byte>)
    requires 0 < |x| <= 4
    ensures Pack(x)[..8] == ByteBits(x[0]) && Pack(x[1..]) == Pack(x)[8..] + Zeros(8)
  {
    PackCons(x);
    PackTail(x[1..]);
    hide Pack, ByteBits;
    FrontAndRest(ByteBits(x[0]), Pack(x[1..]), Pack(x));
  }

  lemma FrontAndRest(front: Bits, q: Word, p: Word)
    requires |front| == 8 && p == front + q[..24] && forall i :: 24 <= i < 32 ==> !q[i]
    ensures p[..8] == front && q == p[8..] + Zeros(8)
  {
    var r := p[8..] + Zeros(8);
    forall i | 0 <= i < 32
      ensures r[i] == q[i]
    {
      if i < 24 {
        assert p[8 + i] == q[i];
      }
    }
  }

  lemma {:induction false} PackInjective(x: seq<Byte>, y: seq<Byte>)
    requires |x| == |y| <= 4 && Pack(x) == Pack(y)
    ensures x == y
    decreases |x|
  {
    hide Pack, Zeros;
    if x != [] {
      PackParts(x);
      PackParts(y);
      assert Value(ByteBits(x[0])) == Value(ByteBits(y[0]));
      PackInjective(x[1..], y[1..]);
      assert x == [x[0]] + x[1..] && y == [y[0]] + y[1..];
    }
  }

  /** Up to four neighbouring bytes cannot change without changing the register. */
  lemma DifferentBytes(c: Word, x: seq<Byte>, y: seq<Byte>)
    requires |x| == |y| <= 4 && x != y
    ensures Crc32c(c, x) != Crc32c(c, y)
  {
    hide Pack, BitSteps, BitsBack, Crc32c;
    FedAtOnce(c, x);
    FedAtOnce(c, y);
    BitStepsBijective(Xor(c, Pack(x)), OCTET * |x|);
    BitStepsBijective(Xor(c, Pack(y)), OCTET * |x|);
    if Crc32c(c, x) == Crc32c(c, y) {
      XorCancels(c, Pack(x), Pack(y));
      PackInjective(x, y);
    }
  }

  /** Changing up to four neighbouring bytes, anywhere, always changes the checksum. */
  lemma BurstDetected(init: Word, head: seq<Byte>, x: seq<Byte>, y: seq<Byte>, tail: seq<Byte>)
    requires |x| == |y| <= 4 && x != y
    ensures Crc32c(init, head + x + tail) != Crc32c(init, head + y + tail)
  {
    hide Crc32c;
    var c := Crc32c(init, head);
    DifferentBytes(c, x, y);
    Chains(init, head, x);
    Chains(init, head, y);
    Chains(init, head + x, tail);
    Chains(init, head + y, tail);
    StaysDifferent(Crc32c(c, x), Crc32c(c, y), tail);
  }
}
