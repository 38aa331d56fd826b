/** Block accounting of an ext4 volume: bitmaps, group descriptors and the superblock counter, as
    bytes of the blocks the journaled device serves. */
module Volume {
  import opened Bytes
  import opened Wrappers
  import opened Disk
  import opened Bitmap
  import Crc

  const BPG: nat := 32768
  const META_BLOCKS: nat := 517
  const SB_AT: nat := 1024
  const RING_BLOCKS: nat := 1024

  /** Inodes of a group. */
  const IPG: nat := 8192

  /** Descriptors that fit the one block mkfs writes. */
  const MAX_DESCS: nat := 64

  /** Groups of the largest volume mkfs accepts. */
  const MAX_GROUPS: nat := 1024

  /** The disk with one block replaced. */
  function Put(d: Disk, i: nat, b: Block): (r: Disk)
    requires i < |d|
    ensures |r| == |d|
  {
    d[i := b]
  }

  lemma PutAt(d: Disk, i: nat, b: Block, k: nat)
    requires i < |d| && k < |d|
    ensures Put(d, i, b)[k] == if k == i then b else d[k]
  {
  }

  // ---- geometry ----

  /** What the driver keeps of a mounted volume: its groups and blocks, and whether it has checksums. */
  datatype Geometry = Geometry(groups: nat, total: nat, csum: bool)

  /** As many groups as the blocks need, and the last one large enough for its own metadata. */
  predicate LaidOut(geo: Geometry) {
    && 1 <= geo.groups <= MAX_GROUPS
    && FirstBlock(geo.groups - 1) + META_BLOCKS <= geo.total <= FirstBlock(geo.groups)
  }

  /** Besides, the descriptors fit one block. */
  predicate ValidGeo(geo: Geometry) { LaidOut(geo) && geo.groups <= MAX_DESCS }

  function FirstBlock(g: nat): nat { 32768 * g }

  function GroupOf(blk: nat): nat { blk / 32768 }

  function BitOf(blk: nat): (b: nat)
    ensures b < BPG
  {
    blk % 32768
  }

  function GroupBlocks(geo: Geometry, g: nat): (n: nat)
    ensures n <= BPG
  {
    if geo.total < FirstBlock(g) then 0
    else if geo.total - FirstBlock(g) < BPG then geo.total - FirstBlock(g) else BPG
  }

  function BitmapBlock(g: nat): nat { FirstBlock(g) + 2 }

  function InodeMapBlock(g: nat): nat { FirstBlock(g) + 3 }

  predicate IsMeta(blk: nat) { BitOf(blk) < META_BLOCKS }

  lemma BlockParts(blk: nat)
    ensures blk == FirstBlock(GroupOf(blk)) + BitOf(blk)
  {
  }

  lemma PartsBlock(g: nat, b: nat)
    requires b < BPG
    ensures GroupOf(FirstBlock(g) + b) == g && BitOf(FirstBlock(g) + b) == b
  {
  }

  /** A block of the volume lies in one of the groups, inside its block count. */
  lemma InGroup(geo: Geometry, blk: nat)
    requires ValidGeo(geo)
    ensures blk < geo.total <==> GroupOf(blk) < geo.groups && BitOf(blk) < GroupBlocks(geo, GroupOf(blk))
  {
  }

  lemma FullGroups(geo: Geometry, g: nat)
    requires LaidOut(geo) && g < geo.groups
    ensures META_BLOCKS <= GroupBlocks(geo, g) && FirstBlock(g) + GroupBlocks(geo, g) <= geo.total
    ensures g + 1 < geo.groups ==> GroupBlocks(geo, g) == BPG
  {
  }

  // ---- bytes of a descriptor ----

  function DescOff(g: nat): nat { 64 * g }

  /** desc_block_of */
  function DescBlockOf(g: nat): (b: nat)
    ensures b == 1 <==> g < MAX_DESCS
  {
    1 + DescOff(g) / 4096
  }

  /** desc_off_of */
  function DescOffOf(g: nat): (o: nat)
    ensures o == 64 * (g % MAX_DESCS) && o + 64 <= 4096
    ensures g < MAX_DESCS ==> o == DescOff(g)
  {
    DescOff(g) % 4096
  }

  /** The entry of a table block that belongs to group `g`, and to every group 64 away from it. */
  function EntryOf(b: Block, g: nat): Desc { b[DescOffOf(g)..DescOffOf(g) + 64] }

  /** What desc_read returns. */
  function DescIn(d: Disk, g: nat): Desc
    requires DescBlockOf(g) < |d|
  {
    EntryOf(d[DescBlockOf(g)], g)
  }

  lemma FirstBlockDescs(d: Disk, g: nat)
    requires g < MAX_DESCS && 1 < |d|
    ensures DescIn(d, g) == DescAt(d[1], g)
  {
  }

  /** A two-byte store leaves every field elsewhere alone. */
  lemma W16Keeps(b: seq<Byte>, o: nat, v: nat)
    requires o + 2 <= |b| && v < 0x1_0000
    ensures forall k: nat :: k + 2 <= |b| && !(k - 2 < o < k + 2) ==> R16(W16(b, o, v), k) == R16(b, k)
    ensures forall k: nat :: k + 4 <= |b| && !(k - 2 < o < k + 4) ==> R32(W16(b, o, v), k) == R32(b, k)
  {
    hide W16;
  }

  lemma W32Keeps(b: seq<Byte>, o: nat, v: nat)
    requires o + 4 <= |b| && v < U32_LIMIT
    ensures forall k: nat :: k + 2 <= |b| && !(k - 4 < o < k + 2) ==> R16(W32(b, o, v), k) == R16(b, k)
    ensures forall k: nat :: k + 4 <= |b| && !(k - 4 < o < k + 4) ==> R32(W32(b, o, v), k) == R32(b, k)
  {
    hide W32;
  }

  type Desc = s: seq<Byte> | |s| == 64 witness seq(64, _ => 0)

  /** `x` written over `b` from byte `o` on. */
  function Splice(b: seq<Byte>, o: nat, x: seq<Byte>): (r: seq<Byte>)
    requires o + |x| <= |b|
    ensures |r| == |b|
    ensures forall i :: 0 <= i < |b| ==> r[i] == if o <= i < o + |x| then x[i - o] else b[i]
  {
    b[..o] + x + b[o + |x|..]
  }

  function DescAt(b: Block, g: nat): Desc
    requires g < MAX_DESCS
  {
    b[DescOff(g)..DescOff(g) + 64]
  }

  function BitmapPtr(ds: Desc): nat { R32(ds, 0) + U32_LIMIT * R32(ds, 32) }

  function InodeMapPtr(ds: Desc): nat { R32(ds, 4) + U32_LIMIT * R32(ds, 36) }

  function InodeTablePtr(ds: Desc): nat { R32(ds, 8) + U32_LIMIT * R32(ds, 40) }

  function FreeOf(ds: Desc): nat { R16(ds, 12) + 0x1_0000 * R16(ds, 44) }

  function FreeInodesOf(ds: Desc): nat { R16(ds, 14) + 0x1_0000 * R16(ds, 46) }

  /** The directories of the group. */
  function UsedDirsOf(ds: Desc): nat { R16(ds, 16) + 0x1_0000 * R16(ds, 48) }

  function SetFree(ds: Desc, v: nat): (r: Desc)
    ensures v < U32_LIMIT ==> FreeOf(r) == v
    ensures FreeInodesOf(r) == FreeInodesOf(ds) && SamePointers(r, ds) && UsedDirsOf(r) == UsedDirsOf(ds)
  {
    hide R16, R32, W16;
    var a: Desc := W16(ds, 12, v % 0x1_0000);
    W16Keeps(ds, 12, v % 0x1_0000);
    W16Keeps(a, 44, v / 0x1_0000 % 0x1_0000);
    W16(a, 44, v / 0x1_0000 % 0x1_0000)
  }

  function SetFreeInodes(ds: Desc, v: nat): (r: Desc)
    ensures v < U32_LIMIT ==> FreeInodesOf(r) == v
    ensures FreeOf(r) == FreeOf(ds) && SamePointers(r, ds) && UsedDirsOf(r) == UsedDirsOf(ds)
  {
    hide R16, R32, W16;
    var a: Desc := W16(ds, 14, v % 0x1_0000);
    W16Keeps(ds, 14, v % 0x1_0000);
    W16Keeps(a, 46, v / 0x1_0000 % 0x1_0000);
    W16(a, 46, v / 0x1_0000 % 0x1_0000)
  }

  /** The places of the bitmaps and of the inode table agree. */
  predicate SamePointers(r: Desc, ds: Desc) {
    BitmapPtr(r) == BitmapPtr(ds) && InodeMapPtr(r) == InodeMapPtr(ds) && InodeTablePtr(r) == InodeTablePtr(ds)
  }

  /** The checksums of the two bitmaps, as the descriptor has them. */
  function MapSum(ds: Desc): nat { R16(ds, 24) }

  function InodeMapSum(ds: Desc): nat { R16(ds, 26) }

  predicate SameSums(r: Desc, ds: Desc) { MapSum(r) == MapSum(ds) && InodeMapSum(r) == InodeMapSum(ds) }

  /** The descriptor carries its own checksum. */
  predicate DescSumOk(g: nat, ds: Desc)
    requires g < U32_LIMIT
  {
    R16(ds, 30) == DescCsum(g, ds)
  }

  function Uuid(): seq<Byte> {
    [0x53, 0x4F, 0x4C, 0x41, 0x52, 0x4F, 0x53, 0x2D, 0x45, 0x58, 0x54, 0x34, 0x2D, 0x32, 0x36, 0x31]
  }

  function Le32(v: nat): seq<Byte>
    requires v < U32_LIMIT
  {
    W32(Zeros(4), 0, v)
  }

  function BitmapCsum(bm: seq<Byte>): (c: nat)
    ensures c < 0x1_0000
  {
    Crc.Number(Crc.Crc32c(Crc.Crc32c(Crc.ONES, Uuid()), bm)) % 0x1_0000
  }

  function SetBitmapCsums(ds: Desc, bm: seq<Byte>, im: seq<Byte>): (r: Desc)
    ensures FreeOf(r) == FreeOf(ds) && FreeInodesOf(r) == FreeInodesOf(ds) && SamePointers(r, ds)
    ensures UsedDirsOf(r) == UsedDirsOf(ds)
  {
    hide BitmapCsum, W16, R16, R32, W32;
    var a: Desc := W16(ds, 24, BitmapCsum(bm));
    var b: Desc := W16(a, 26, BitmapCsum(im));
    W16Keeps(ds, 24, BitmapCsum(bm));
    W16Keeps(a, 26, BitmapCsum(im));
    W32Keeps(b, 56, 0);
    W32(b, 56, 0)
  }

  function DescCsum(g: nat, ds: Desc): (c: nat)
    requires g < U32_LIMIT
    ensures c < 0x1_0000
  {
    Crc.Number(Crc.Crc32c(Crc.Crc32c(Crc.Crc32c(Crc.ONES, Uuid()), Le32(g)), W16(ds, 30, 0))) % 0x1_0000
  }

  function Sealed(g: nat, ds: Desc): (r: Desc)
    requires g < U32_LIMIT
    ensures FreeOf(r) == FreeOf(ds) && FreeInodesOf(r) == FreeInodesOf(ds) && SamePointers(r, ds)
    ensures UsedDirsOf(r) == UsedDirsOf(ds)
  {
    hide DescCsum, W16, R16, R32;
    W16Keeps(ds, 30, DescCsum(g, ds));
    W16(ds, 30, DescCsum(g, ds))
  }

  lemma SealedSums(g: nat, ds: Desc)
    requires g < U32_LIMIT
    ensures SameSums(Sealed(g, ds), ds) && DescSumOk(g, Sealed(g, ds))
  {
    hide W16, R16, DescCsum;
    SameDescSum(g, ds, DescCsum(g, ds));
    W16Keeps(ds, 30, DescCsum(g, ds));
  }

  /** The checksum field is no part of what is summed. */
  lemma SameDescSum(g: nat, ds: Desc, v: nat)
    requires g < U32_LIMIT && v < 0x1_0000
    ensures DescCsum(g, W16(ds, 30, v)) == DescCsum(g, ds)
  {
    hide W16, Crc.Crc32c, Crc.Number, Uuid, Le32;
    W16Again(ds, 30, v);
  }

  lemma CountersKeepSums(ds: Desc, v: nat)
    ensures SameSums(SetFree(ds, v), ds) && SameSums(SetFreeInodes(ds, v), ds)
  {
    hide R16, W16;
    var a: Desc := W16(ds, 12, v % 0x1_0000);
    var b: Desc := W16(ds, 14, v % 0x1_0000);
    W16Keeps(ds, 12, v % 0x1_0000);
    W16Keeps(a, 44, v / 0x1_0000 % 0x1_0000);
    W16Keeps(ds, 14, v % 0x1_0000);
    W16Keeps(b, 46, v / 0x1_0000 % 0x1_0000);
  }

  lemma SetSums(ds: Desc, bm: seq<Byte>, im: seq<Byte>)
    ensures var r := SetBitmapCsums(ds, bm, im); MapSum(r) == BitmapCsum(bm) && InodeMapSum(r) == BitmapCsum(im)
  {
    hide BitmapCsum, W16, R16, W32;
    var a: Desc := W16(ds, 24, BitmapCsum(bm));
    var b: Desc := W16(a, 26, BitmapCsum(im));
    W16Keeps(a, 26, BitmapCsum(im));
    W32Keeps(b, 56, 0);
  }

  /** Clearing a field undoes what was stored there before. */
  lemma W16Again(b: seq<Byte>, o: nat, v: nat)
    requires o + 2 <= |b| && v < 0x1_0000
    ensures W16(W16(b, o, v), o, 0) == W16(b, o, 0)
  {
    var l, r := W16(W16(b, o, v), o, 0), W16(b, o, 0);
    assert forall i :: 0 <= i < |b| ==> l[i] == r[i];
  }

  lemma W32Again(b: seq<Byte>, o: nat, v: nat)
    requires o + 4 <= |b| && v < U32_LIMIT
    ensures W32(W32(b, o, v), o, 0) == W32(b, o, 0)
  {
    var l, r := W32(W32(b, o, v), o, 0), W32(b, o, 0);
    assert forall i :: 0 <= i < |b| ==> l[i] == r[i];
  }

  lemma DescAtSplice(b: Block, g: nat, ds: Desc, k: nat)
    requires g < MAX_DESCS && k < MAX_DESCS
    ensures DescAt(Splice(b, DescOff(g), ds), k) == if k == g then ds else DescAt(b, k)
  {
    var r := Splice(b, DescOff(g), ds);
    if k < g {
      assert DescOff(k) + 64 <= DescOff(g);
    } else if g < k {
      assert DescOff(g) + 64 <= DescOff(k);
    }
  }

  // ---- bytes of the superblock ----

  function SbFree(b: Block): nat { R32(b, SB_AT + 12) + U32_LIMIT * R32(b, SB_AT + 340) }

  function SbInodes(b: Block): nat { R32(b, SB_AT + 16) }

  /** The checksum over the superblock with its own field zero. */
  function SbSum(sb: seq<Byte>): (v: nat)
    requires |sb| == 1024
    ensures v < U32_LIMIT
  {
    Crc.Number(Crc.Crc32c(Crc.ONES, W32(sb, 628, 0)))
  }

  predicate SbSumOk(sb: seq<Byte>)
    requires |sb| == 1024
  {
    R32(sb, 628) == SbSum(sb)
  }

  function SbSealed(sb: seq<Byte>, csum: bool): (r: seq<Byte>)
    requires |sb| == 1024
    ensures |r| == 1024 && R32(r, 12) == R32(sb, 12) && R32(r, 340) == R32(sb, 340) && R32(r, 16) == R32(sb, 16)
  {
    hide SbSum, R32, W32;
    W32Keeps(sb, 628, SbSum(sb));
    if !csum then sb else W32(sb, 628, SbSum(sb))
  }

  lemma SbSealedReads(sb: seq<Byte>, csum: bool)
    requires |sb| == 1024
    ensures SameHeader(sb, SbSealed(sb, csum)) && (csum ==> SbSumOk(SbSealed(sb, csum)))
  {
    hide R16, R32, W32, SbSum;
    SameSbSum(sb, SbSum(sb));
    W32Keeps(sb, 628, SbSum(sb));
  }

  /** The checksum field is no part of what is summed. */
  lemma SameSbSum(sb: seq<Byte>, v: nat)
    requires |sb| == 1024 && v < U32_LIMIT
    ensures SbSum(W32(sb, 628, v)) == SbSum(sb)
  {
    hide W32, Crc.Crc32c, Crc.Number;
    W32Again(sb, 628, v);
  }

  // ---- the checks of mount ----

  const SB_MAGIC: nat := 0xEF53

  /** File types, extents, 64-bit block numbers and metadata checksums. */
  const INCOMPAT: nat := 0x4C2

  /** Descriptor checksums and large inodes. */
  const RO_COMPAT: nat := 0x210

  /** No bit but those of `mask`. */
  predicate Only(v: nat, mask: nat) {
    forall k: nat :: k < 32 ==> HasBit(v, k) ==> HasBit(mask, k)
  }

  /** The feature bit of metadata checksums. */
  predicate HasSums(sb: seq<Byte>)
    requires |sb| == 1024
  {
    HasBit(R32(sb, 96), 10)
  }

  /** mount_at on the 1024 bytes of a superblock: what it answers when told whether the checksum fits. */
  function CheckWith(sb: seq<Byte>, fits: bool): Result<Geometry, FsErr>
    requires |sb| == 1024
  {
    var total, bpg := R32(sb, 4) + U32_LIMIT * R32(sb, 332), R32(sb, 32);
    if R16(sb, 56) != SB_MAGIC then Err(NotFormatted)
    else if !Only(R32(sb, 96), INCOMPAT) || !Only(R32(sb, 100), RO_COMPAT) then Err(Unsupported)
    else if HasSums(sb) && !fits then Err(Io)
    else if R32(sb, 24) != 2 || bpg == 0 || bpg > BPG then Err(Unsupported)
    else
      var groups := (total + bpg - 1) / bpg % U32_LIMIT;
      if groups == 0 || groups > MAX_GROUPS then Err(Unsupported)
      else Ok(Geometry(groups, total % U32_LIMIT, HasSums(sb)))
  }

  function SbOf(b: Block): (sb: seq<Byte>)
    ensures |sb| == 1024
  {
    b[SB_AT..SB_AT + 1024]
  }

  /** What mount_at answers on a volume whose block 0 is `b`, before it looks at the journal. */
  function CheckSuper(b: Block): Result<Geometry, FsErr> {
    CheckWith(SbOf(b), SbSumOk(SbOf(b)))
  }

  /** The fields mount_at reads. */
  predicate SameHeader(sb: seq<Byte>, r: seq<Byte>) {
    && |sb| == |r| == 1024 && R16(r, 56) == R16(sb, 56)
    && R32(r, 96) == R32(sb, 96) && R32(r, 100) == R32(sb, 100) && R32(r, 24) == R32(sb, 24)
    && R32(r, 4) == R32(sb, 4) && R32(r, 332) == R32(sb, 332) && R32(r, 32) == R32(sb, 32)
  }

  predicate Answers(b: Block, r: Result<Geometry, FsErr>) { r == CheckSuper(b) }

  /** The volume mounts, with this geometry: whatever mount_at answers is that. */
  ghost predicate Mounts(b: Block, geo: Geometry) {
    forall r :: Answers(b, r) ==> r == Ok(geo)
  }

  /** Without the right checksum no volume that has checksums mounts. */
  lemma MountsIff(b: Block, geo: Geometry)
    ensures Mounts(b, geo) <==> CheckSuper(b) == Ok(geo)
    ensures Mounts(b, geo) <==>
            CheckWith(SbOf(b), true) == Ok(geo) && (geo.csum ==> SbSumOk(SbOf(b)))
  {
    hide R32, R16, SbSumOk, Only, HasBit, SbOf;
    assert Answers(b, CheckSuper(b));
  }

  /** Changing other fields and sealing the superblock anew leaves the volume mountable. */
  lemma SealedMounts(b: Block, sb: seq<Byte>, csum: bool, geo: Geometry)
    requires Mounts(b, geo) && csum == geo.csum && SameHeader(SbOf(b), sb)
    ensures Mounts(Splice(b, SB_AT, SbSealed(sb, csum)), geo)
  {
    hide R32, R16, SbSumOk, Only, HasBit, SbOf, SbSealed, Splice, Mounts;
    var r: Block := Splice(b, SB_AT, SbSealed(sb, csum));
    SbSealedReads(sb, csum);
    SpliceSb(b, SbSealed(sb, csum));
    MountsIff(b, geo);
    MountsIff(r, geo);
  }

  lemma SpliceSb(b: Block, sb: seq<Byte>)
    requires |sb| == 1024
    ensures SbOf(Splice(b, SB_AT, sb)) == sb
  {
  }

  /** The superblock block after its free counter moved by `delta`. */
  function SbMoved(b: Block, delta: int, csum: bool): (r: Block) {
    var sb := b[SB_AT..SB_AT + 1024];
    var cur: nat := if SbFree(b) + delta < 0 then 0 else SbFree(b) + delta;
    var sb1 := W32(W32(sb, 12, cur % U32_LIMIT), 340, cur / U32_LIMIT % U32_LIMIT);
    Splice(b, SB_AT, SbSealed(sb1, csum))
  }

  lemma SbMovedReads(b: Block, delta: int, csum: bool)
    requires 0 <= SbFree(b) + delta < U32_LIMIT * U32_LIMIT
    ensures SbFree(SbMoved(b, delta, csum)) == SbFree(b) + delta
  {
    hide SbSealed, R32, W32, Splice, SbFree;
    var sb := b[SB_AT..SB_AT + 1024];
    var cur: nat := SbFree(b) + delta;
    var sb1 := W32(W32(sb, 12, cur % U32_LIMIT), 340, cur / U32_LIMIT % U32_LIMIT);
    W32Keeps(W32(sb, 12, cur % U32_LIMIT), 340, cur / U32_LIMIT % U32_LIMIT);
    SbSpliceReads(b, SbSealed(sb1, csum));
    TwoHalves(cur);
  }

  lemma SbMovedMounts(b: Block, delta: int, csum: bool, geo: Geometry)
    requires Mounts(b, geo) && csum == geo.csum
    ensures Mounts(SbMoved(b, delta, csum), geo)
  {
    hide SbSealed, R16, R32, W32, Splice, SbFree, Mounts;
    var sb := SbOf(b);
    var cur: nat := if SbFree(b) + delta < 0 then 0 else SbFree(b) + delta;
    var a := W32(sb, 12, cur % U32_LIMIT);
    W32Keeps(sb, 12, cur % U32_LIMIT);
    W32Keeps(a, 340, cur / U32_LIMIT % U32_LIMIT);
    SealedMounts(b, W32(a, 340, cur / U32_LIMIT % U32_LIMIT), csum, geo);
  }

  lemma TwoHalves(v: nat)
    requires v < U32_LIMIT * U32_LIMIT
    ensures v == v % U32_LIMIT + U32_LIMIT * (v / U32_LIMIT % U32_LIMIT)
  {
  }

  lemma SbSpliceReads(b: Block, sb: seq<Byte>)
    requires |sb| == 1024
    ensures SbFree(Splice(b, SB_AT, sb)) == R32(sb, 12) + U32_LIMIT * R32(sb, 340)
  {
  }

  lemma SbMovedInodes(b: Block, delta: int, csum: bool)
    ensures SbInodes(SbMoved(b, delta, csum)) == SbInodes(b)
  {
    hide SbSealed, R32, W32, Splice, SbInodes;
    var sb := b[SB_AT..SB_AT + 1024];
    var cur: nat := if SbFree(b) + delta < 0 then 0 else SbFree(b) + delta;
    var sb1 := W32(sb, 12, cur % U32_LIMIT);
    var sb2 := W32(sb1, 340, cur / U32_LIMIT % U32_LIMIT);
    W32Keeps(sb, 12, cur % U32_LIMIT);
    W32Keeps(sb1, 340, cur / U32_LIMIT % U32_LIMIT);
    SbInodesSplice(b, SbSealed(sb2, csum));
    SbInodesSplice(b, sb);
    assert Splice(b, SB_AT, sb) == b;
  }

  lemma SbInodesSplice(b: Block, sb: seq<Byte>)
    requires |sb| == 1024
    ensures SbInodes(Splice(b, SB_AT, sb)) == R32(sb, 16)
  {
  }

  // ---- what else is in block 0 ----

  /** The bytes of the free block count, the free inode count and the checksum. */
  predicate CounterByte(i: nat) { SB_AT + 12 <= i < SB_AT + 20 || SB_AT + 340 <= i < SB_AT + 344 || SumByte(i) }

  predicate SumByte(i: nat) { SB_AT + 628 <= i < SB_AT + 632 }

  predicate SameByte(b: Block, e: Block, i: nat) { i < 4096 && !CounterByte(i) ==> e[i] == b[i] }

  /** Block 0 differs in these bytes only. */
  ghost predicate SameRest(b: Block, e: Block) {
    forall i: nat :: SameByte(b, e, i)
  }

  lemma RestTrans(b: Block, m: Block, e: Block)
    requires SameRest(b, m) && SameRest(m, e)
    ensures SameRest(b, e)
  {
    forall i: nat
      ensures SameByte(b, e, i)
    {
      assert SameByte(b, m, i) && SameByte(m, e, i);
    }
  }

  lemma RestRefl(b: Block)
    ensures SameRest(b, b)
  {
  }

  lemma SbMovedRest(b: Block, delta: int, csum: bool)
    ensures SameRest(b, SbMoved(b, delta, csum))
  {
    hide SbSum, SbFree, R32;
    var sb := SbOf(b);
    var cur: nat := if SbFree(b) + delta < 0 then 0 else SbFree(b) + delta;
    SealedRest(b, W32(W32(sb, 12, cur % U32_LIMIT), 340, cur / U32_LIMIT % U32_LIMIT), csum);
  }

  lemma SealedRest(b: Block, sb: seq<Byte>, csum: bool)
    requires |sb| == 1024
    requires forall i :: 0 <= i < 1024 && !(12 <= i < 20) && !(340 <= i < 344) ==> sb[i] == SbOf(b)[i]
    ensures SameRest(b, Splice(b, SB_AT, SbSealed(sb, csum)))
  {
    hide SbSum, W32, R32;
    var r := SbSealed(sb, csum);
    assert forall i :: 0 <= i < 1024 && !(628 <= i < 632) ==> r[i] == sb[i];
    hide SbSealed;
    forall i: nat
      ensures SameByte(b, Splice(b, SB_AT, r), i)
    {
    }
  }

  /** Block 0 of the disk is as it was, but for the counters. */
  ghost predicate HeaderKept(origin: Disk, d: Disk) { |origin| > 0 && |d| > 0 ==> SameRest(origin[0], d[0]) }

  lemma HeaderThen(origin: Disk, d: Disk, blk: nat, b: Block)
    requires HeaderKept(origin, d) && |origin| == |d| && blk < |d| && (blk != 0 || SameRest(d[0], b))
    ensures HeaderKept(origin, Put(d, blk, b))
  {
    hide SameRest;
    if blk == 0 {
      RestTrans(origin[0], d[0], b);
    }
  }

  /** The descriptors of the block count these directories. */
  ghost predicate Counts(b: Block, dirs: seq<nat>) {
    |dirs| == MAX_DESCS && forall g: nat :: g < MAX_DESCS ==> UsedDirsOf(DescAt(b, g)) == dirs[g]
  }

  /** What the descriptors of a block count. */
  ghost function DirsIn(b: Block): (dirs: seq<nat>)
    ensures Counts(b, dirs)
  {
    hide UsedDirsOf, DescAt;
    seq(MAX_DESCS, g requires 0 <= g < MAX_DESCS => UsedDirsOf(DescAt(b, g)))
  }

  lemma CountAt(b: Block, dirs: seq<nat>, g: nat)
    requires Counts(b, dirs) && g < MAX_DESCS
    ensures UsedDirsOf(DescAt(b, g)) == dirs[g]
  {
    hide DescAt, UsedDirsOf;
  }

  lemma SameCounts(b: Block, dirs: seq<nat>)
    requires Counts(b, dirs)
    ensures |dirs| == MAX_DESCS
  {
  }

  /** One descriptor is replaced. */
  lemma CountsThen(b: Block, dirs: seq<nat>, g: nat, ds: Desc)
    requires Counts(b, dirs) && g < MAX_DESCS
    ensures Counts(Splice(b, DescOff(g), Sealed(g, ds)), dirs[g := UsedDirsOf(ds)])
  {
    hide DescAt, UsedDirsOf, Sealed, Splice;
    forall h: nat | h < MAX_DESCS
      ensures UsedDirsOf(DescAt(Splice(b, DescOff(g), Sealed(g, ds)), h)) == dirs[g := UsedDirsOf(ds)][h]
    {
      DescAtSplice(b, g, Sealed(g, ds), h);
    }
  }

  // ---- accounting ----

  /** The disk and the free counters agree, for blocks and for inodes. */
  ghost predicate Accounting(d: Disk, geo: Geometry) {
    BlockCounts(d, geo) && InodeCounts(d, geo) && Sums(d, geo)
  }

  /** The volume mounts, which takes the right checksum in its superblock, and each descriptor carries its
      own checksum and those of its two bitmaps. */
  ghost predicate Sums(d: Disk, geo: Geometry) {
    |d| > 0 && Mounts(d[0], geo) && forall g: nat :: g < geo.groups ==> SumsOk(d, g)
  }

  ghost predicate SumsOk(d: Disk, g: nat) {
    && 1 < |d| && g < MAX_DESCS && InodeMapBlock(g) < |d|
    && var ds := DescAt(d[1], g);
    && DescSumOk(g, ds) && MapSum(ds) == BitmapCsum(d[BitmapBlock(g)])
    && InodeMapSum(ds) == BitmapCsum(d[InodeMapBlock(g)])
  }

  /** Nothing that the checksums are about has changed. */
  lemma SumsKept(d: Disk, e: Disk, geo: Geometry)
    requires Sums(d, geo) && 0 < |e| == |d| && Mounts(e[0], geo)
    requires forall g: nat :: g < geo.groups ==> SameSumGroup(d, e, g)
    ensures Sums(e, geo)
  {
    hide DescAt, Mounts, DescSumOk, MapSum, InodeMapSum, BitmapCsum, BitmapBlock, InodeMapBlock;
    forall g: nat | g < geo.groups
      ensures SumsOk(e, g)
    {
      assert SumsOk(d, g) && SameSumGroup(d, e, g);
    }
  }

  predicate SameSumGroup(d: Disk, e: Disk, g: nat) {
    && 1 < |d| == |e| && g < MAX_DESCS && InodeMapBlock(g) < |d| && DescAt(e[1], g) == DescAt(d[1], g)
    && e[BitmapBlock(g)] == d[BitmapBlock(g)] && e[InodeMapBlock(g)] == d[InodeMapBlock(g)]
  }

  /** Each group's free inode counter is the number of its clear inode bits, and the superblock has
      their sum. */
  ghost predicate InodeCounts(d: Disk, geo: Geometry) {
    && ValidGeo(geo) && geo.total <= |d|
    && (forall g: nat :: g < geo.groups ==> InodesOk(d, g))
    && SbInodes(d[0]) == InodeSum(d[1], geo.groups)
  }

  ghost predicate InodesOk(d: Disk, g: nat) {
    && 1 < |d| && g < MAX_DESCS && InodeMapBlock(g) < |d|
    && FreeInodesOf(DescAt(d[1], g)) == ZeroBits(d[InodeMapBlock(g)], IPG)
  }

  function InodeSum(b: Block, n: nat): nat
    requires n <= MAX_DESCS
  {
    if n == 0 then 0 else InodeSum(b, n - 1) + FreeInodesOf(DescAt(b, n - 1))
  }

  lemma {:induction false} SameInodeSum(b: Block, c: Block, n: nat)
    requires n <= MAX_DESCS && forall h: nat :: h < n ==> FreeInodesOf(DescAt(c, h)) == FreeInodesOf(DescAt(b, h))
    ensures InodeSum(c, n) == InodeSum(b, n)
  {
    hide FreeInodesOf, DescAt;
    if n > 0 {
      SameInodeSum(b, c, n - 1);
    }
  }

  /** Nothing that the inode counters are about has changed. */
  lemma InodeCountsKept(d: Disk, e: Disk, geo: Geometry)
    requires InodeCounts(d, geo) && |e| == |d| && SbInodes(e[0]) == SbInodes(d[0])
    requires forall h: nat :: h < geo.groups ==> SameInodeGroup(d, e, h)
    ensures InodeCounts(e, geo)
  {
    hide FreeInodesOf, DescAt, ZeroBits, InodeMapBlock, InodeSum, SbInodes;
    forall h: nat | h < geo.groups
      ensures InodesOk(e, h) && FreeInodesOf(DescAt(e[1], h)) == FreeInodesOf(DescAt(d[1], h))
    {
      assert InodesOk(d, h) && SameInodeGroup(d, e, h);
    }
    SameInodeSum(d[1], e[1], geo.groups);
  }

  predicate SameInodeGroup(d: Disk, e: Disk, h: nat) {
    && 1 < |d| == |e| && h < MAX_DESCS && InodeMapBlock(h) < |d|
    && e[InodeMapBlock(h)] == d[InodeMapBlock(h)] && FreeInodesOf(DescAt(e[1], h)) == FreeInodesOf(DescAt(d[1], h))
  }

  /** The descriptors point at the fixed places, each group's free block counter is the number of its
      clear bits, and the superblock has their sum. */
  ghost predicate BlockCounts(d: Disk, geo: Geometry) {
    && ValidGeo(geo) && geo.total <= |d|
    && (forall g: nat :: g < geo.groups ==> GroupOk(d, geo, g))
    && SbFree(d[0]) == FreeSum(d[1], geo.groups)
  }

  ghost predicate GroupOk(d: Disk, geo: Geometry, g: nat) {
    && 1 < |d| && g < MAX_DESCS && BitmapBlock(g) < |d|
    && BitmapPtr(DescAt(d[1], g)) == BitmapBlock(g)
    && InodeMapPtr(DescAt(d[1], g)) == FirstBlock(g) + 3
    && InodeTablePtr(DescAt(d[1], g)) == FirstBlock(g) + 4
    && FreeOf(DescAt(d[1], g)) == ZeroBits(d[BitmapBlock(g)], GroupBlocks(geo, g))
  }

  function FreeSum(b: Block, n: nat): nat
    requires n <= MAX_DESCS
  {
    if n == 0 then 0 else FreeSum(b, n - 1) + FreeOf(DescAt(b, n - 1))
  }

  /** The bitmap bit of a block. */
  predicate Used(d: Disk, blk: nat) {
    BitmapBlock(GroupOf(blk)) < |d| && Bit(d[BitmapBlock(GroupOf(blk))], BitOf(blk))
  }

  /** Every block of the volume has its bitmap on the disk. */
  lemma HasBitmap(geo: Geometry, blk: nat)
    requires ValidGeo(geo) && blk < geo.total
    ensures GroupOf(blk) < geo.groups && BitmapBlock(GroupOf(blk)) < geo.total
    ensures BitmapBlock(GroupOf(blk)) !in {0, 1}
  {
  }

  // ---- one block marked or unmarked ----

  function MovedDesc(d: Disk, g: nat, bm: Block, delta: int): (r: Desc)
    requires 1 < |d| && g < MAX_DESCS && InodeMapPtr(DescAt(d[1], g)) < |d|
  {
    MovedFrom(DescAt(d[1], g), g, bm, d[InodeMapPtr(DescAt(d[1], g))], delta)
  }

  function MovedFrom(ds: Desc, g: nat, bm: Block, im: Block, delta: int): (r: Desc)
    requires g < MAX_DESCS
  {
    var v: nat := if FreeOf(ds) + delta < 0 then 0 else FreeOf(ds) + delta;
    Sealed(g, SetFree(SetBitmapCsums(ds, bm, im), v))
  }

  lemma MovedReads(ds: Desc, g: nat, bm: Block, im: Block, delta: int)
    requires g < MAX_DESCS
    ensures var r := MovedFrom(ds, g, bm, im, delta);
      && FreeInodesOf(r) == FreeInodesOf(ds) && SamePointers(r, ds)
      && (0 <= FreeOf(ds) + delta < U32_LIMIT ==> FreeOf(r) == FreeOf(ds) + delta)
  {
    hide SetBitmapCsums, Sealed, SetFree, FreeOf, BitmapPtr, InodeMapPtr, InodeTablePtr;
  }

  lemma MovedSums(ds: Desc, g: nat, bm: Block, im: Block, delta: int)
    requires g < MAX_DESCS
    ensures var r := MovedFrom(ds, g, bm, im, delta);
      DescSumOk(g, r) && MapSum(r) == BitmapCsum(bm) && InodeMapSum(r) == BitmapCsum(im)
  {
    hide SetBitmapCsums, Sealed, SetFree, FreeOf, DescSumOk, MapSum, InodeMapSum, BitmapCsum;
    var a := SetBitmapCsums(ds, bm, im);
    var v: nat := if FreeOf(ds) + delta < 0 then 0 else FreeOf(ds) + delta;
    SetSums(ds, bm, im);
    CountersKeepSums(a, v);
    SealedSums(g, SetFree(a, v));
  }

  lemma MovedDescReads(d: Disk, g: nat, bm: Block, delta: int)
    requires 1 < |d| && g < MAX_DESCS && InodeMapPtr(DescAt(d[1], g)) < |d|
    ensures var ds, r := DescAt(d[1], g), MovedDesc(d, g, bm, delta);
      && FreeInodesOf(r) == FreeInodesOf(ds) && SamePointers(r, ds)
      && (0 <= FreeOf(ds) + delta < U32_LIMIT ==> FreeOf(r) == FreeOf(ds) + delta)
  {
    hide MovedFrom, FreeOf, BitmapPtr, InodeTablePtr, DescAt;
    MovedReads(DescAt(d[1], g), g, bm, d[InodeMapPtr(DescAt(d[1], g))], delta);
  }

  /** The bitmaps of the block's group are on the disk. */
  predicate Markable(d: Disk, blk: nat) {
    && GroupOf(blk) < MAX_DESCS && BitmapBlock(GroupOf(blk)) < |d|
    && 1 < |d| && InodeMapPtr(DescAt(d[1], GroupOf(blk))) < |d|
  }

  /** The disk with the bit of `blk` set or cleared and the two counters moved to match. */
  function Toggled(d: Disk, blk: nat, on: bool, csum: bool): (r: Disk)
    requires Markable(d, blk)
    ensures |r| == |d|
  {
    hide ToggledDescs, SbMoved, ToggledBitmap, BitmapBlock, InodeMapPtr, DescAt, GroupOf;
    var g := GroupOf(blk);
    var bm := ToggledBitmap(d, blk, on);
    Put(Put(Put(d, BitmapBlock(g), bm), 1, ToggledDescs(d, blk, on)), 0, SbMoved(d[0], Delta(on), csum))
  }

  function Delta(on: bool): int { if on then -1 else 1 }

  function ToggledBitmap(d: Disk, blk: nat, on: bool): Block
    requires Markable(d, blk)
  {
    PutBit(d[BitmapBlock(GroupOf(blk))], BitOf(blk), on)
  }

  function ToggledDescs(d: Disk, blk: nat, on: bool): Block
    requires Markable(d, blk)
  {
    Splice(d[1], DescOff(GroupOf(blk)), MovedDesc(d, GroupOf(blk), ToggledBitmap(d, blk, on), Delta(on)))
  }

  /** The three blocks, as the driver computes them. */
  lemma ToggledIs(d: Disk, blk: nat, on: bool, csum: bool, bm: Block, ds1: Desc, v: nat)
    requires Markable(d, blk)
    requires var g := GroupOf(blk);
      && bm == PutBit(d[BitmapBlock(g)], BitOf(blk), on)
      && ds1 == SetBitmapCsums(DescAt(d[1], g), bm, d[InodeMapPtr(DescAt(d[1], g))]) && v == FreeOf(ds1) + Delta(on)
    ensures var g := GroupOf(blk);
      && DescOff(g) + 64 <= 4096
      && Toggled(d, blk, on, csum) == Moved(d, BitmapBlock(g), bm, g, SetFree(ds1, v), Delta(on), csum)
  {
    hide BitmapBlock, InodeMapPtr, DescAt, GroupOf, Put, SbMoved, Splice, Sealed, SetFree, FreeOf, SetBitmapCsums,
         PutBit;
  }

  /** Bitmap, descriptor and superblock written one after the other. */
  function Moved(d: Disk, at: nat, bm: Block, g: nat, ds: Desc, delta: int, csum: bool): Disk
    requires at < |d| && 1 < |d| && DescOff(g) + 64 <= 4096 && g < U32_LIMIT
  {
    Put(Put(Put(d, at, bm), 1, Splice(d[1], DescOff(g), Sealed(g, ds))), 0, SbMoved(d[0], delta, csum))
  }

  lemma CanToggle(d: Disk, geo: Geometry, blk: nat)
    requires Accounting(d, geo) && blk < geo.total
    ensures GroupOf(blk) < geo.groups && BitmapBlock(GroupOf(blk)) < geo.total && Markable(d, blk)
    ensures InodeMapPtr(DescAt(d[1], GroupOf(blk))) == FirstBlock(GroupOf(blk)) + 3 < geo.total
  {
    HasBitmap(geo, blk);
    FullGroups(geo, GroupOf(blk));
    assert GroupOk(d, geo, GroupOf(blk));
  }

  /** Only blocks 0, 1 and the bitmap of the block's group change. */
  lemma ToggleFrame(d: Disk, blk: nat, on: bool, csum: bool, x: nat)
    requires Markable(d, blk) && x < |d|
    requires x != 0 && x != 1 && x != BitmapBlock(GroupOf(blk))
    ensures Toggled(d, blk, on, csum)[x] == d[x]
  {
    hide ToggledDescs, SbMoved, ToggledBitmap, BitmapBlock, InodeMapPtr, DescAt, GroupOf, Put;
    var i := BitmapBlock(GroupOf(blk));
    var d1 := Put(d, i, ToggledBitmap(d, blk, on));
    var d2 := Put(d1, 1, ToggledDescs(d, blk, on));
    PutAt(d, i, ToggledBitmap(d, blk, on), x);
    PutAt(d1, 1, ToggledDescs(d, blk, on), x);
    PutAt(d2, 0, SbMoved(d[0], Delta(on), csum), x);
  }

  lemma BitmapsApart(g: nat, h: nat)
    ensures BitmapBlock(g) == BitmapBlock(h) <==> g == h
    ensures BitmapBlock(g) != 0 && BitmapBlock(g) != 1
  {
  }

  lemma ToggledAt(d: Disk, blk: nat, on: bool, csum: bool)
    requires Markable(d, blk)
    ensures var g, r := GroupOf(blk), Toggled(d, blk, on, csum);
      && r[BitmapBlock(g)] == ToggledBitmap(d, blk, on)
      && r[1] == ToggledDescs(d, blk, on)
      && r[0] == SbMoved(d[0], Delta(on), csum)
  {
    BitmapsApart(GroupOf(blk), 0);
    hide ToggledDescs, SbMoved, ToggledBitmap, BitmapBlock, InodeMapPtr, DescAt, GroupOf, Put;
    var i := BitmapBlock(GroupOf(blk));
    var d1 := Put(d, i, ToggledBitmap(d, blk, on));
    var d2 := Put(d1, 1, ToggledDescs(d, blk, on));
    var z := SbMoved(d[0], Delta(on), csum);
    PutAt(d, i, ToggledBitmap(d, blk, on), i);
    PutAt(d1, 1, ToggledDescs(d, blk, on), i);
    PutAt(d1, 1, ToggledDescs(d, blk, on), 1);
    PutAt(d2, 0, z, i);
    PutAt(d2, 0, z, 1);
    PutAt(d2, 0, z, 0);
  }

  /** Marking changes the bit of that block and of no other. */
  lemma ToggledUsed(d: Disk, blk: nat, on: bool, csum: bool, x: nat)
    requires Markable(d, blk)
    ensures Used(Toggled(d, blk, on, csum), x) <==> if x == blk then on else Used(d, x)
  {
    hide MovedDesc, SbMoved, PutBit, Splice, BitmapBlock, Toggled, DescAt, InodeMapPtr, GroupOf, Bit;
    var g, r := GroupOf(blk), Toggled(d, blk, on, csum);
    ToggledAt(d, blk, on, csum);
    BitmapsApart(g, GroupOf(x));
    BlockParts(blk);
    BlockParts(x);
    if BitmapBlock(GroupOf(x)) >= |d| {
    } else if GroupOf(x) == g {
      PutBitAt(d[BitmapBlock(g)], BitOf(blk), on, BitOf(x));
    } else {
      BitmapsApart(GroupOf(x), 0);
      ToggleFrame(d, blk, on, csum, BitmapBlock(GroupOf(x)));
    }
  }

  lemma {:induction false} FreeSumSplice(b: Block, g: nat, ds: Desc, n: nat)
    requires g < MAX_DESCS && n <= MAX_DESCS
    ensures FreeSum(Splice(b, DescOff(g), ds), n) == FreeSum(b, n) + if g < n then FreeOf(ds) - FreeOf(DescAt(b,
        g)) else 0
  {
    hide FreeOf, DescAt, Splice;
    if n > 0 {
      FreeSumSplice(b, g, ds, n - 1);
      DescAtSplice(b, g, ds, n - 1);
    }
  }

  lemma {:induction false} FreeSumBound(d: Disk, geo: Geometry, n: nat)
    requires Accounting(d, geo) && n <= geo.groups
    ensures FreeSum(d[1], n) <= FirstBlock(n)
  {
    hide Sums, InodeCounts, FreeOf, DescAt, BitmapBlock, ZeroBits, GroupBlocks, BitmapPtr, InodeMapPtr, InodeTablePtr;
    if n > 0 {
      FreeSumBound(d, geo, n - 1);
      assert GroupOk(d, geo, n - 1);
    }
  }

  /** Marking a clear block or clearing a marked one keeps the counters right. */
  lemma ToggleKeepsAccounting(d: Disk, geo: Geometry, blk: nat, on: bool, csum: bool)
    requires Accounting(d, geo) && blk < geo.total && csum == geo.csum
    requires Markable(d, blk)
    requires Used(d, blk) != on
    ensures Accounting(Toggled(d, blk, on, csum), geo)
  {
    hide BlockCounts, InodeCounts, Sums, Toggled, Used, Markable;
    ToggleKeepsBlocks(d, geo, blk, on, csum);
    ToggleKeepsInodes(d, geo, blk, on, csum);
    ToggleKeepsSums(d, geo, blk, on, csum);
  }

  lemma ToggleKeepsSums(d: Disk, geo: Geometry, blk: nat, on: bool, csum: bool)
    requires Accounting(d, geo) && blk < geo.total && Markable(d, blk) && csum == geo.csum
    ensures Sums(Toggled(d, blk, on, csum), geo)
  {
    CanToggle(d, geo, blk);
    hide BlockCounts, InodeCounts, Toggled, Markable, SumsOk, Mounts, SbMoved, ToggledDescs, ToggledBitmap, GroupOf,
         BitmapBlock, InodeMapPtr, DescAt;
    var r := Toggled(d, blk, on, csum);
    ToggledAt(d, blk, on, csum);
    SbMovedMounts(d[0], Delta(on), csum, geo);
    forall h: nat | h < geo.groups
      ensures SumsOk(r, h)
    {
      ToggleSum(d, geo, blk, on, csum, h);
    }
  }

  lemma ToggleSum(d: Disk, geo: Geometry, blk: nat, on: bool, csum: bool, h: nat)
    requires Accounting(d, geo) && blk < geo.total && Markable(d, blk) && h < geo.groups
    ensures SumsOk(Toggled(d, blk, on, csum), h)
  {
    hide Accounting, Toggled, DescAt, InodeMapPtr, GroupOf, MovedDesc, ToggledBitmap, SbMoved, SumsOk, ToggledDescs,
         BitmapBlock, DescSumOk, MapSum, InodeMapSum, BitmapCsum, Markable;
    var g, r := GroupOf(blk), Toggled(d, blk, on, csum);
    CanToggle(d, geo, blk);
    SumsAt(d, geo, h);
    MapsElsewhere(g, h);
    SumsPlaces(d, h);
    ToggleFrame(d, blk, on, csum, InodeMapBlock(h));
    ToggledDescAt(d, blk, on, csum, h);
    if h == g {
      ToggledAt(d, blk, on, csum);
      ToggledSums(d, blk, on);
      SumsAre(r, h);
    } else {
      ToggleFrame(d, blk, on, csum, BitmapBlock(h));
      SumsSame(d, r, h);
    }
  }

  lemma SumsAt(d: Disk, geo: Geometry, h: nat)
    requires Accounting(d, geo) && h < geo.groups
    ensures SumsOk(d, h)
  {
    hide BlockCounts, InodeCounts, SumsOk, Mounts;
  }

  lemma ToggledDescAt(d: Disk, blk: nat, on: bool, csum: bool, h: nat)
    requires Markable(d, blk) && h < MAX_DESCS
    ensures DescAt(Toggled(d, blk, on, csum)[1], h) ==
            if h == GroupOf(blk) then MovedDesc(d, h, ToggledBitmap(d, blk, on), Delta(on)) else DescAt(d[1], h)
  {
    hide Toggled, DescAt, InodeMapPtr, GroupOf, MovedDesc, ToggledBitmap, SbMoved, Splice;
    ToggledAt(d, blk, on, csum);
    DescAtSplice(d[1], GroupOf(blk), MovedDesc(d, GroupOf(blk), ToggledBitmap(d, blk, on), Delta(on)), h);
  }

  lemma SumsPlaces(d: Disk, h: nat)
    requires SumsOk(d, h)
    ensures 1 < |d| && h < MAX_DESCS && BitmapBlock(h) < InodeMapBlock(h) < |d|
  {
  }

  lemma SumsAre(d: Disk, h: nat)
    requires 1 < |d| && h < MAX_DESCS && BitmapBlock(h) < InodeMapBlock(h) < |d|
    requires var ds := DescAt(d[1], h);
      && DescSumOk(h, ds) && MapSum(ds) == BitmapCsum(d[BitmapBlock(h)])
      && InodeMapSum(ds) == BitmapCsum(d[InodeMapBlock(h)])
    ensures SumsOk(d, h)
  {
  }

  lemma SumsSame(d: Disk, e: Disk, h: nat)
    requires SumsOk(d, h) && |e| == |d| && DescAt(e[1], h) == DescAt(d[1], h)
    requires e[BitmapBlock(h)] == d[BitmapBlock(h)] && e[InodeMapBlock(h)] == d[InodeMapBlock(h)]
    ensures SumsOk(e, h)
  {
    hide DescAt, DescSumOk, MapSum, InodeMapSum, BitmapCsum;
  }

  lemma MapOrder(g: nat)
    ensures 1 < BitmapBlock(g) < InodeMapBlock(g)
  {
  }

  lemma MapsElsewhere(g: nat, h: nat)
    ensures InodeMapBlock(h) != BitmapBlock(g) && InodeMapBlock(h) > 1 && BitmapBlock(h) > 1
    ensures BitmapBlock(g) == BitmapBlock(h) <==> g == h
  {
  }

  lemma ToggledSums(d: Disk, blk: nat, on: bool)
    requires Markable(d, blk)
    ensures var g := GroupOf(blk);
      var bm, ds := ToggledBitmap(d, blk, on), MovedDesc(d, g, ToggledBitmap(d, blk, on), Delta(on));
      && DescSumOk(g, ds) && MapSum(ds) == BitmapCsum(bm)
      && InodeMapSum(ds) == BitmapCsum(d[InodeMapPtr(DescAt(d[1], g))])
  {
    hide DescAt, InodeMapPtr, GroupOf, MovedFrom, ToggledBitmap, DescSumOk, MapSum, InodeMapSum, BitmapCsum;
    var g := GroupOf(blk);
    MovedSums(DescAt(d[1], g), g, ToggledBitmap(d, blk, on), d[InodeMapPtr(DescAt(d[1], g))], Delta(on));
  }

  lemma ToggleKeepsInodes(d: Disk, geo: Geometry, blk: nat, on: bool, csum: bool)
    requires Accounting(d, geo) && blk < geo.total && Markable(d, blk)
    ensures InodeCounts(Toggled(d, blk, on, csum), geo)
  {
    hide MovedDesc, SbMoved, PutBit, Splice, Toggled, DescAt, BitmapPtr, InodeMapPtr, InodeTablePtr, GroupOf,
         ZeroBits, FreeOf, FreeInodesOf, GroupBlocks, Bit, BitOf, FreeSum, InodeSum, SbInodes, SbFree;
    var g, r := GroupOf(blk), Toggled(d, blk, on, csum);
    ToggledAt(d, blk, on, csum);
    SbMovedInodes(d[0], Delta(on), csum);
    var ds := MovedDesc(d, g, ToggledBitmap(d, blk, on), Delta(on));
    MovedDescReads(d, g, ToggledBitmap(d, blk, on), Delta(on));
    forall h: nat | h < geo.groups
      ensures SameInodeGroup(d, r, h)
    {
      assert InodesOk(d, h);
      DescAtSplice(d[1], g, ds, h);
      ToggleFrame(d, blk, on, csum, InodeMapBlock(h));
    }
    InodeCountsKept(d, r, geo);
  }

  lemma ToggleKeepsBlocks(d: Disk, geo: Geometry, blk: nat, on: bool, csum: bool)
    requires Accounting(d, geo) && blk < geo.total
    requires Markable(d, blk)
    requires Used(d, blk) != on
    ensures BlockCounts(Toggled(d, blk, on, csum), geo)
  {
    hide InodeCounts, MovedDesc, SbMoved, PutBit, Splice, BitmapBlock, Toggled, DescAt, InodeMapPtr, BitmapPtr,
         InodeTablePtr, GroupOf, ZeroBits, FreeOf, GroupBlocks, Bit, BitOf, FreeSum;
    var g, r := GroupOf(blk), Toggled(d, blk, on, csum);
    var delta := Delta(on);
    CanToggle(d, geo, blk);
    ToggledAt(d, blk, on, csum);
    InGroup(geo, blk);
    assert GroupOk(d, geo, g);
    MovedDescReads(d, g, ToggledBitmap(d, blk, on), delta);
    var n := GroupBlocks(geo, g);
    var bm := ToggledBitmap(d, blk, on);
    assert ZeroBits(bm, n) == ZeroBits(d[BitmapBlock(g)], n) + delta by {
      ZeroBitsPut(d[BitmapBlock(g)], BitOf(blk), on, n);
    }
    var ds := MovedDesc(d, g, bm, delta);
    assert FreeOf(ds) == ZeroBits(bm, n);
    forall h: nat | h < geo.groups
      ensures GroupOk(r, geo, h)
    {
      ToggleGroup(d, geo, blk, on, csum, h);
    }
    FreeSumSplice(d[1], g, ds, geo.groups);
    FreeSumBound(d, geo, geo.groups);
    SbMovedReads(d[0], delta, csum);
  }

  lemma ToggleGroup(d: Disk, geo: Geometry, blk: nat, on: bool, csum: bool, h: nat)
    requires Accounting(d, geo) && blk < geo.total && h < geo.groups
    requires Markable(d, blk) && GroupOf(blk) < geo.groups
    requires var g, r := GroupOf(blk), Toggled(d, blk, on, csum);
      FreeOf(MovedDesc(d, g, ToggledBitmap(d, blk, on), Delta(on))) == ZeroBits(ToggledBitmap(d, blk, on),
          GroupBlocks(geo, g))
    ensures GroupOk(Toggled(d, blk, on, csum), geo, h)
  {
    hide MovedDesc, SbMoved, PutBit, Splice, BitmapBlock, Toggled, DescAt, InodeMapPtr, BitmapPtr, InodeTablePtr,
         GroupOf, ZeroBits, FreeOf, GroupBlocks, Bit, BitOf, FreeSum;
    var g, r := GroupOf(blk), Toggled(d, blk, on, csum);
    assert GroupOk(d, geo, h) && GroupOk(d, geo, g);
    ToggledAt(d, blk, on, csum);
    var ds := MovedDesc(d, g, ToggledBitmap(d, blk, on), Delta(on));
    MovedDescReads(d, g, ToggledBitmap(d, blk, on), Delta(on));
    DescAtSplice(d[1], g, ds, h);
    if h != g {
      BitmapsApart(g, h);
      BitmapsApart(h, 0);
      ToggleFrame(d, blk, on, csum, BitmapBlock(h));
    }
  }

  /** A write anywhere but to blocks 0 and 1 and the bitmaps does not touch the accounting. */
  lemma DataWriteKeeps(d: Disk, geo: Geometry, blk: nat, b: Block)
    requires Accounting(d, geo) && 1 < blk < |d| && BitOf(blk) != 2 && BitOf(blk) != 3
    ensures Accounting(Put(d, blk, b), geo)
    ensures forall x: nat :: x < geo.total ==> (Used(Put(d, blk, b), x) <==> Used(d, x))
  {
    hide InodeCounts, Sums;
    DataWriteInodes(d, geo, blk, b);
    DataWriteSums(d, geo, blk, b);
    hide Put, BitmapPtr, InodeMapPtr, InodeTablePtr, FreeOf, DescAt, ZeroBits, FreeSum, Bit, SbFree, GroupBlocks;
    PutAt(d, blk, b, 0);
    PutAt(d, blk, b, 1);
    forall g: nat | g < geo.groups
      ensures GroupOk(Put(d, blk, b), geo, g)
    {
      assert GroupOk(d, geo, g);
      PartsBlock(g, 2);
      PutAt(d, blk, b, BitmapBlock(g));
    }
    forall x: nat | x < geo.total
      ensures Used(Put(d, blk, b), x) <==> Used(d, x)
    {
      HasBitmap(geo, x);
      PartsBlock(GroupOf(x), 2);
      PutAt(d, blk, b, BitmapBlock(GroupOf(x)));
    }
  }

  lemma DataWriteSums(d: Disk, geo: Geometry, blk: nat, b: Block)
    requires Sums(d, geo) && 1 < blk < |d| && BitOf(blk) != 2 && BitOf(blk) != 3
    ensures Sums(Put(d, blk, b), geo)
  {
    hide Put, DescAt, Mounts, DescSumOk, MapSum, InodeMapSum, BitmapCsum;
    PutAt(d, blk, b, 0);
    PutAt(d, blk, b, 1);
    forall g: nat | g < geo.groups
      ensures SameSumGroup(d, Put(d, blk, b), g)
    {
      assert SumsOk(d, g);
      PartsBlock(g, 2);
      PartsBlock(g, 3);
      PutAt(d, blk, b, BitmapBlock(g));
      PutAt(d, blk, b, InodeMapBlock(g));
    }
    SumsKept(d, Put(d, blk, b), geo);
  }

  lemma DataWriteInodes(d: Disk, geo: Geometry, blk: nat, b: Block)
    requires InodeCounts(d, geo) && 1 < blk < |d| && BitOf(blk) != 3
    ensures InodeCounts(Put(d, blk, b), geo)
  {
    hide Put, FreeInodesOf, DescAt, ZeroBits, InodeSum, SbInodes;
    PutAt(d, blk, b, 0);
    PutAt(d, blk, b, 1);
    forall g: nat | g < geo.groups
      ensures SameInodeGroup(d, Put(d, blk, b), g)
    {
      assert InodesOk(d, g);
      PartsBlock(g, 3);
      PutAt(d, blk, b, InodeMapBlock(g));
    }
    InodeCountsKept(d, Put(d, blk, b), geo);
  }

  // ---- the driver ----

  /** The volume as a command sees it: the logical blocks, and the block writes made since `origin`. */
  class Device {
    var d: Disk
    const geo: Geometry
    const csum: bool
    ghost var origin: Disk

    /** mkfs is making the volume; otherwise block 0 keeps all but its counters. */
    ghost const making: bool
    var log: seq<BlockWrite>

    /** The directories that the descriptors count for each group, unless mkfs has yet to write them. */
    ghost var dirs: seq<nat>

    /** The log tells the whole difference from the origin. */
    ghost predicate Valid()
      reads this
    {
      && d == Overwrite(origin, log) && |d| <= U32_LIMIT && (forall b :: b in BlocksOf(log) ==> b < |d|)
      && csum == geo.csum && |origin| == |d| && (making || HeaderKept(origin, d))
      && (dirs == [] || (1 < |d| && Counts(d[1], dirs)))
    }

    constructor (d: Disk, geo: Geometry, ghost making: bool)
      requires |d| <= U32_LIMIT
      ensures Valid() && this.d == d && this.geo == geo && log == [] && origin == d && this.making == making
      ensures dirs == if making || |d| < 2 then [] else DirsIn(d[1])
    {
      if |d| > 0 {
        RestRefl(d[0]);
      }
      this.d := d;
      this.making := making;
      this.geo := geo;
      csum := geo.csum;
      origin := d;
      log := [];
      dirs := if making || |d| < 2 then [] else DirsIn(d[1]);
    }

    method ReadBlock(blk: nat) returns (b: Block)
      requires blk < |d|
      ensures b == d[blk]
    {
      b := d[blk];
    }

    method WriteBlock(blk: nat, b: Block)
      requires Valid() && blk < |d| && (making || blk != 0 || SameRest(d[0], b))
      requires blk != 1 || dirs == [] || Counts(b, dirs)
      modifies this`d, this`log
      ensures Valid() && d == Put(old(d), blk, b) && BlocksOf(log) == BlocksOf(old(log)) + {blk}
    {
      hide Overwrite, BlocksOf, SameRest, HeaderKept, Counts;
      LogSnoc(origin, d, log, blk, b);
      if !making {
        HeaderThen(origin, d, blk, b);
      }
      d := d[blk := b];
      log := log + [BlockWrite(blk, b)];
    }

    /** A block write while no journal is active: a raw write outside the device fails. */
    method TryWrite(blk: nat, b: Block) returns (ok: bool)
      requires Valid() && making && dirs == []
      modifies this`d, this`log
      ensures Valid() && (ok <==> blk < |old(d)|)
      ensures d == if ok then Put(old(d), blk, b) else old(d)
    {
      hide Overwrite, BlocksOf;
      ok := blk < |d|;
      if ok {
        WriteBlock(blk, b);
      }
    }

    /** desc_read */
    method DescRead(g: nat) returns (ds: Desc)
      requires DescBlockOf(g) < |d|
      ensures ds == DescIn(d, g) && (g < MAX_DESCS ==> ds == DescAt(d[1], g))
    {
      hide DescAt, EntryOf;
      var b := ReadBlock(DescBlockOf(g));
      ds := EntryOf(b, g);
      if g < MAX_DESCS {
        FirstBlockDescs(d, g);
      }
    }

    /** desc_write */
    method DescWrite(g: nat, ds: Desc)
      requires Valid() && g < MAX_DESCS && 1 < |d| && (dirs == [] || UsedDirsOf(ds) == dirs[g])
      modifies this`d, this`log
      ensures Valid() && d == Put(old(d), 1, Splice(old(d)[1], DescOff(g), Sealed(g, ds)))
      ensures BlocksOf(log) == BlocksOf(old(log)) + {1}
    {
      hide Sealed, Put, Overwrite, Splice, UsedDirsOf, Counts;
      if dirs != [] {
        CountsThen(d[1], dirs, g, ds);
        SameCounts(d[1], dirs);
        assert dirs[g := dirs[g]] == dirs;
      }
      var b := ReadBlock(DescBlockOf(g));
      WriteBlock(DescBlockOf(g), Splice(b, DescOffOf(g), Sealed(g, ds)));
    }

    /** update_sb_free_blocks */
    method UpdateSbFree(delta: int)
      requires Valid() && 0 < |d|
      modifies this`d, this`log
      ensures Valid() && d == Put(old(d), 0, SbMoved(old(d)[0], delta, csum))
      ensures BlocksOf(log) == BlocksOf(old(log)) + {0}
    {
      hide SbMoved, Put, Overwrite, SameRest, HeaderKept, Counts;
      var b := ReadBlock(0);
      SbMovedRest(b, delta, csum);
      WriteBlock(0, SbMoved(b, delta, csum));
    }

    /** The bit loop of alloc_block. */
    method FirstClear(bmap: Block, n: nat) returns (bit: nat)
      requires n <= BPG
      ensures ClearAt(bmap, n, bit)
    {
      hide Bit;
      bit := 0;
      while bit < n && Bit(bmap, bit)
        invariant bit <= n && forall k: nat :: k < bit ==> Bit(bmap, k)
      {
        bit := bit + 1;
      }
    }

    /** The group loop of alloc_block: the first group with a clear bit, and that bit. */
    method FindFree() returns (found: bool, g: nat, bit: nat)
      requires Accounting(d, geo)
      ensures found ==>
                && IsLowest(d, geo, FirstBlock(g) + bit)
                && GroupOf(FirstBlock(g) + bit) == g && BitOf(FirstBlock(g) + bit) == bit
      ensures !found ==> Full(d, geo)
    {
      hide Sums, InodeCounts;
      assert ValidGeo(geo) && 1 < |d| && geo.total <= |d|;
      hide Used, Accounting, GroupBlocks, DescAt, BitmapPtr, FirstBlock, GroupOf, BitOf, BitmapBlock, UsedBelow,
           ValidGeo, InodeMapPtr, IsLowest, Full, ClearAt;
      NothingBelow(d, geo);
      g := 0;
      while g < geo.groups
        invariant g <= geo.groups && UsedBelow(d, geo, g)
      {
        GroupLayout(d, geo, g);
        var ds := DescRead(g);
        var bmap := ReadBlock(BitmapPtr(ds));
        bit := FirstClear(bmap, GroupBlocks(geo, g));
        if bit < GroupBlocks(geo, g) {
          LowestFree(d, geo, g, bit);
          return true, g, bit;
        }
        GroupDone(d, geo, g);
        g := g + 1;
      }
      AllGroupsDone(d, geo);
      return false, 0, 0;
    }

    /** alloc_block: the lowest free block of the volume is marked, or there is none. */
    method AllocBlock() returns (r: Result<nat, FsErr>)
      requires Valid() && Accounting(d, geo)
      modifies this`d, this`log
      ensures Valid() && Accounting(d, geo)
      ensures r.Err? ==> r.error == NoSpace && d == old(d) && log == old(log) && Full(d, geo)
      ensures r.Ok? ==>
                && IsLowest(old(d), geo, r.value) && Markable(old(d), r.value)
                   && d == Toggled(old(d), r.value, true, csum)
                && BlocksOf(log) == BlocksOf(old(log)) + {BitmapBlock(GroupOf(r.value)), 1, 0}
    {
      hide Used, Accounting, Toggled, Markable, DescAt, BitmapPtr, FirstBlock, GroupOf, BitOf, BitmapBlock, Overwrite,
           BlocksOf, Full, InodeMapPtr;
      var found, g, bit := FindFree();
      if !found {
        return Err(NoSpace);
      }
      ghost var blk := FirstBlock(g) + bit;
      AllocStep(d, geo, blk, csum);
      BlockLayout(d, geo, blk);
      var ds := DescRead(g);
      var bmap := ReadBlock(BitmapPtr(ds));
      var ok := MarkBlock(blk, g, bit, ds, bmap);
      if !ok {
        return Err(NoSpace);
      }
      return Ok(FirstBlock(g) + bit);
    }

    /** The rest of alloc_block once a clear bit was found. Its own check of the group counter
        never fires while the counters are right. */
    method MarkBlock(ghost blk: nat, g: nat, bit: nat, ds: Desc, bmap: Block) returns (ok: bool)
      requires Valid() && Accounting(d, geo) && blk < geo.total && g == GroupOf(blk) && bit == BitOf(blk)
        && !Used(d, blk)
      requires Markable(d, blk) && ds == DescAt(d[1], g) && BitmapBlock(g) < |d| && bmap == d[BitmapBlock(g)]
      modifies this`d, this`log
      ensures ok && Valid() && d == Toggled(old(d), blk, true, csum)
      ensures BlocksOf(log) == BlocksOf(old(log)) + {BitmapBlock(g), 1, 0}
    {
      hide Used, Accounting, DescAt, FirstBlock, GroupOf, BitOf, Bit, PutBit, GroupBlocks, BitmapPtr, InodeMapPtr,
           SetBitmapCsums, Sealed, SetFree, FreeOf, Splice, SbMoved, BlocksOf, ValidGeo, Put, Overwrite, BitmapBlock,
           Markable, Toggled, Moved, UsedDirsOf, Counts;
      ghost var d0 := d;
      BlockLayout(d, geo, blk);
      if dirs != [] {
        CountAt(d[1], dirs, g);
      }
      FreeCounted(d, geo, blk);
      var bm: Block := PutBit(bmap, bit, true);
      WriteBlock(BitmapPtr(ds), bm);
      PutAt(d0, BitmapBlock(g), bm, InodeMapPtr(ds));
      PutAt(d0, BitmapBlock(g), bm, 1);
      PutAt(d0, BitmapBlock(g), bm, 0);
      var inodes := ReadBlock(InodeMapPtr(ds));
      var ds1 := SetBitmapCsums(ds, bm, inodes);
      var cur := FreeOf(ds1);
      if cur == 0 {
        return false;
      }
      ToggledIs(d0, blk, true, csum, bm, ds1, cur - 1);
      MoveCounters(g, SetFree(ds1, cur - 1), -1, d0, BitmapBlock(g), bm);
      return true;
    }

    /** The end of both: the group's descriptor, then the superblock. */
    method MoveCounters(g: nat, ds: Desc, delta: int, ghost d0: Disk, ghost at: nat, ghost bm: Block)
      requires Valid() && g < MAX_DESCS && 1 < at < |d0| && d == Put(d0, at, bm)
        && (dirs == [] || UsedDirsOf(ds) == dirs[g])
      modifies this`d, this`log
      ensures Valid() && d == Moved(d0, at, bm, g, ds, delta, csum) && BlocksOf(log) == BlocksOf(old(log)) + {1, 0}
    {
      hide Overwrite, BlocksOf, Put, Splice, Sealed, SbMoved, UsedDirsOf, Counts;
      PutAt(d0, at, bm, 1);
      PutAt(d0, at, bm, 0);
      DescWrite(g, ds);
      PutAt(Put(d0, at, bm), 1, Splice(d0[1], DescOff(g), Sealed(g, ds)), 0);
      UpdateSbFree(delta);
    }

    /** free_block */
    method FreeBlock(blk: nat)
      requires Valid() && Accounting(d, geo) && blk < geo.total && Used(d, blk)
      modifies this`d, this`log
      ensures Valid() && Accounting(d, geo)
      ensures Markable(old(d), blk) && d == Toggled(old(d), blk, false, csum)
      ensures BlocksOf(log) == BlocksOf(old(log)) + {BitmapBlock(GroupOf(blk)), 1, 0}
    {
      hide Used, Accounting, Toggled, Markable, DescAt, BitmapPtr, FirstBlock, GroupOf, BitOf, BitmapBlock, Overwrite,
           BlocksOf, InodeMapPtr;
      CanToggle(d, geo, blk);
      BlockLayout(d, geo, blk);
      ToggleKeepsAccounting(d, geo, blk, false, csum);
      var g := GroupOf(blk);
      var ds := DescRead(g);
      var bmap := ReadBlock(BitmapPtr(ds));
      UnmarkBlock(blk, g, BitOf(blk), ds, bmap);
    }

    /** The writes of free_block. */
    method UnmarkBlock(ghost blk: nat, g: nat, bit: nat, ds: Desc, bmap: Block)
      requires Valid() && Accounting(d, geo) && blk < geo.total && g == GroupOf(blk) && bit == BitOf(blk)
      requires Markable(d, blk) && ds == DescAt(d[1], g) && BitmapBlock(g) < |d| && bmap == d[BitmapBlock(g)]
      modifies this`d, this`log
      ensures Valid() && d == Toggled(old(d), blk, false, csum)
      ensures BlocksOf(log) == BlocksOf(old(log)) + {BitmapBlock(g), 1, 0}
    {
      hide Used, Accounting, DescAt, FirstBlock, GroupOf, BitOf, Bit, PutBit, GroupBlocks, BitmapPtr, InodeMapPtr,
           SetBitmapCsums, Sealed, SetFree, FreeOf, Splice, SbMoved, BlocksOf, ValidGeo, Put, Overwrite, BitmapBlock,
           Markable, Toggled, Moved, UsedDirsOf, Counts;
      ghost var d0 := d;
      BlockLayout(d, geo, blk);
      if dirs != [] {
        CountAt(d[1], dirs, g);
      }
      var bm: Block := PutBit(bmap, bit, false);
      WriteBlock(BitmapPtr(ds), bm);
      PutAt(d0, BitmapBlock(g), bm, InodeMapPtr(ds));
      PutAt(d0, BitmapBlock(g), bm, 1);
      PutAt(d0, BitmapBlock(g), bm, 0);
      var inodes := ReadBlock(InodeMapPtr(ds));
      var ds1 := SetBitmapCsums(ds, bm, inodes);
      var cur := FreeOf(ds1) + 1;
      ToggledIs(d0, blk, false, csum, bm, ds1, cur);
      MoveCounters(g, SetFree(ds1, cur), 1, d0, BitmapBlock(g), bm);
    }
  }

  lemma LogSnoc(origin: Disk, d: Disk, log: seq<BlockWrite>, blk: nat, b: Block)
    requires d == Overwrite(origin, log) && blk < |d|
    ensures Put(d, blk, b) == Overwrite(origin, log + [BlockWrite(blk, b)])
    ensures BlocksOf(log + [BlockWrite(blk, b)]) == BlocksOf(log) + {blk}
  {
    hide BlocksOf;
    BlocksSnoc(log, BlockWrite(blk, b));
    assert (log + [BlockWrite(blk, b)])[..|log|] == log;
  }

  lemma BlockLayout(d: Disk, geo: Geometry, blk: nat)
    requires Accounting(d, geo) && blk < geo.total
    ensures var g := GroupOf(blk);
      && g < geo.groups && g < MAX_DESCS && 1 < BitmapBlock(g) < |d|
      && BitmapPtr(DescAt(d[1], g)) == BitmapBlock(g)
      && InodeMapPtr(DescAt(d[1], g)) < |d| && InodeMapPtr(DescAt(d[1], g)) != BitmapBlock(g)
      && BitOf(blk) / 8 < BLOCK
  {
    hide BitmapPtr, InodeMapPtr, DescAt;
    HasBitmap(geo, blk);
    GroupLayout(d, geo, GroupOf(blk));
  }

  lemma GroupLayout(d: Disk, geo: Geometry, g: nat)
    requires Accounting(d, geo) && g < geo.groups
    ensures 1 < BitmapBlock(g) < |d| && g < MAX_DESCS && FirstBlock(g) + 3 < |d|
    ensures BitmapPtr(DescAt(d[1], g)) == BitmapBlock(g)
      && InodeMapPtr(DescAt(d[1], g)) == FirstBlock(g) + 3 != BitmapBlock(g)
  {
    hide BitmapPtr, InodeMapPtr, DescAt;
    FullGroups(geo, g);
    assert GroupOk(d, geo, g);
  }

  /** Every block of the first `g` groups is used. */
  ghost predicate UsedBelow(d: Disk, geo: Geometry, g: nat) {
    forall x: nat :: GroupOf(x) < g && x < geo.total ==> Used(d, x)
  }

  /** The first clear bit among `n`, or `n`. */
  ghost predicate ClearAt(bmap: Block, n: nat, bit: nat) {
    bit <= n <= BPG && (bit < n ==> !Bit(bmap, bit)) && forall k: nat :: k < bit ==> Bit(bmap, k)
  }

  /** The lowest-numbered free block of the volume. */
  ghost predicate IsLowest(d: Disk, geo: Geometry, blk: nat) {
    blk < geo.total && !Used(d, blk) && forall x: nat :: x < blk ==> Used(d, x)
  }

  ghost predicate Full(d: Disk, geo: Geometry) {
    forall x: nat :: x < geo.total ==> Used(d, x)
  }

  lemma UsedIs(d: Disk, g: nat, bit: nat)
    requires BitmapBlock(g) < |d| && bit < BPG
    ensures Used(d, FirstBlock(g) + bit) <==> Bit(d[BitmapBlock(g)], bit)
  {
    hide Bit, FirstBlock, GroupOf, BitOf, BitmapBlock;
    PartsBlock(g, bit);
  }

  /** What alloc_block finds: the block at the first clear bit of the first group that has one. */
  lemma LowestFree(d: Disk, geo: Geometry, g: nat, bit: nat)
    requires ValidGeo(geo) && g < geo.groups && BitmapBlock(g) < |d| && bit < GroupBlocks(geo, g)
    requires UsedBelow(d, geo, g) && ClearAt(d[BitmapBlock(g)], GroupBlocks(geo, g), bit)
    ensures var blk := FirstBlock(g) + bit;
      blk < geo.total && GroupOf(blk) == g && BitOf(blk) == bit && !Used(d, blk) && IsLowest(d, geo, blk)
  {
    hide Used, Bit, BitmapBlock, GroupBlocks;
    PartsBlock(g, bit);
    UsedIs(d, g, bit);
    InGroup(geo, FirstBlock(g) + bit);
    forall x: nat | x < FirstBlock(g) + bit
      ensures Used(d, x)
    {
      BlockParts(x);
      if GroupOf(x) == g {
        UsedIs(d, g, BitOf(x));
      }
    }
  }

  lemma AllocStep(d: Disk, geo: Geometry, blk: nat, csum: bool)
    requires Accounting(d, geo) && blk < geo.total && !Used(d, blk) && csum == geo.csum
    ensures Markable(d, blk) && Accounting(Toggled(d, blk, true, csum), geo)
  {
    hide Accounting, Toggled, Markable, Used;
    CanToggle(d, geo, blk);
    ToggleKeepsAccounting(d, geo, blk, true, csum);
  }

  lemma NothingBelow(d: Disk, geo: Geometry)
    ensures UsedBelow(d, geo, 0)
  {
  }

  lemma GroupDone(d: Disk, geo: Geometry, g: nat)
    requires ValidGeo(geo) && g < geo.groups
    requires UsedBelow(d, geo, g)
    requires BitmapBlock(g) < |d| && ClearAt(d[BitmapBlock(g)], GroupBlocks(geo, g), GroupBlocks(geo, g))
    ensures UsedBelow(d, geo, g + 1)
  {
    hide Used, Bit, BitmapBlock;
    forall x: nat | GroupOf(x) < g + 1 && x < geo.total
      ensures Used(d, x)
    {
      BlockParts(x);
      InGroup(geo, x);
      if GroupOf(x) == g {
        UsedIs(d, g, BitOf(x));
      }
    }
  }

  lemma AllGroupsDone(d: Disk, geo: Geometry)
    requires ValidGeo(geo)
    requires UsedBelow(d, geo, geo.groups)
    ensures Full(d, geo)
  {
    hide Used, Bit, BitmapBlock;
    forall x: nat | x < geo.total
      ensures Used(d, x)
    {
      InGroup(geo, x);
    }
  }

  /** A clear bit is counted in its group's counter. */
  lemma FreeCounted(d: Disk, geo: Geometry, blk: nat)
    requires Accounting(d, geo) && blk < geo.total && !Used(d, blk)
    ensures GroupOf(blk) < MAX_DESCS && 1 <= FreeOf(DescAt(d[1], GroupOf(blk))) <= BPG
  {
    hide FreeOf, DescAt, Bit, GroupBlocks, BitOf, FirstBlock;
    InGroup(geo, blk);
    var g := GroupOf(blk);
    assert GroupOk(d, geo, g);
    NoZeroBits(d[BitmapBlock(g)], GroupBlocks(geo, g));
  }
}
