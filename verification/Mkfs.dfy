/** What mkfs_at leaves on the disk: bitmaps, descriptors and counters that agree, and a journal
    area that is one run of blocks. */
module Mkfs {
  import opened Bytes
  import opened Wrappers
  import opened Disk
  import opened Bitmap
  import opened Volume
  import opened Extents
  import JournalFormat

  /** The first block after the metadata of group 0. */
  const RING_AT: nat := 517

  // ---- geometry ----

  /** mkfs_at makes as many groups as it takes to cover the device. */
  predicate Covers(geo: Geometry) {
    geo.groups >= 1 && FirstBlock(geo.groups - 1) < geo.total <= FirstBlock(geo.groups)
  }

  /** What mkfs_at tells the driver of the device: its groups, and to keep checksums. */
  predicate Told(geo: Geometry) { Covers(geo) && geo.csum }

  function MetaIn(n: nat): nat { if META_BLOCKS < n then META_BLOCKS else n }

  /** The free blocks of the first `n` groups as the descriptors count them. */
  function FreshSum(geo: Geometry, n: nat): nat {
    if n == 0 then 0
    else FreshSum(geo, n - 1) + GroupBlocks(geo, n - 1) - MetaIn(GroupBlocks(geo, n - 1))
  }

  /** What the superblock is told: all blocks less 517 a group. */
  function SuperFree(geo: Geometry): int { geo.total - 517 * geo.groups }

  lemma {:induction false} FullGroupsSum(geo: Geometry, n: nat)
    requires Covers(geo) && n < geo.groups
    ensures FreshSum(geo, n) == FirstBlock(n) - 517 * n
  {
    if n > 0 {
      FullGroupsSum(geo, n - 1);
      assert GroupBlocks(geo, n - 1) == BPG;
    }
  }

  /** The superblock counter is the sum of the group counters exactly when the last group can
      hold its own metadata. */
  lemma SuperCountExact(geo: Geometry)
    requires Covers(geo)
    ensures SuperFree(geo) == FreshSum(geo, geo.groups) <==> META_BLOCKS <= GroupBlocks(geo, geo.groups - 1)
  {
    FullGroupsSum(geo, geo.groups - 1);
  }

  // ---- bitmaps ----

  /** Used: the metadata at the front, and everything behind the group's `n` blocks. */
  ghost predicate FreshBits(bm: Block, n: nat) {
    forall k: nat :: k < BPG ==> (Bit(bm, k) <==> k < MetaIn(n) || k >= n)
  }

  method BuildBitmap(geo: Geometry, g: nat) returns (bm: Block)
    requires LaidOut(geo) && g < geo.groups
    ensures FreshBits(bm, GroupBlocks(geo, g))
  {
    hide HasBit, WithByteBit, GroupBlocks, PutBit, Bit;
    var n := GroupBlocks(geo, g);
    bm := ZERO_BLOCK;
    NoBits();
    for k := 0 to MetaIn(n)
      invariant forall i: nat :: i < BPG ==> (Bit(bm, i) <==> i < k)
    {
      forall i: nat | i < BPG
        ensures Bit(PutBit(bm, k, true), i) <==> i < k + 1
      {
        PutBitAt(bm, k, true, i);
      }
      bm := PutBit(bm, k, true);
    }
    for k := n to BPG
      invariant forall i: nat :: i < BPG ==> (Bit(bm, i) <==> i < MetaIn(n) || n <= i < k)
    {
      forall i: nat | i < BPG
        ensures Bit(PutBit(bm, k, true), i) <==> i < MetaIn(n) || n <= i < k + 1
      {
        PutBitAt(bm, k, true, i);
      }
      bm := PutBit(bm, k, true);
    }
  }

  lemma NoBits()
    ensures forall i: nat :: i < BPG ==> !Bit(ZERO_BLOCK, i)
  {
    forall i: nat | i < BPG
      ensures !Bit(ZERO_BLOCK, i)
    {
      ZeroByteBits(i % 8);
    }
  }

  lemma {:induction false} ZeroByteBits(k: nat)
    ensures !HasBit(0, k)
  {
    if k > 0 {
      ZeroByteBits(k - 1);
    }
  }

  lemma FreshZeroBits(bm: Block, n: nat)
    requires n <= BPG && FreshBits(bm, n)
    ensures ZeroBits(bm, n) == n - MetaIn(n)
  {
    hide Bit;
    assert forall k: nat :: k < n ==> (Bit(bm, k) <==> !(MetaIn(n) <= k < n));
    ZeroBitsRange(bm, MetaIn(n), n, n);
  }

  /** Inodes 1 to 10 are reserved in group 0. */
  ghost predicate FreshInodes(im: Block, g: nat) {
    forall i: nat :: i < BPG ==> (Bit(im, i) <==> i < Reserved(g))
  }

  function Reserved(g: nat): nat { if g == 0 then 10 else 0 }

  lemma FreshInodesZero(im: Block, g: nat)
    requires FreshInodes(im, g)
    ensures ZeroBits(im, IPG) == IPG - Reserved(g)
  {
    hide Bit;
    assert forall k: nat :: k < IPG ==> (Bit(im, k) <==> !(Reserved(g) <= k < IPG));
    ZeroBitsRange(im, Reserved(g), IPG, IPG);
  }

  method BuildInodeMap(g: nat) returns (im: Block)
    ensures FreshInodes(im, g)
  {
    hide HasBit, WithByteBit, PutBit, Bit;
    im := ZERO_BLOCK;
    NoBits();
    if g == 0 {
      for k := 0 to 10
        invariant forall i: nat :: i < BPG ==> (Bit(im, i) <==> i < k)
      {
        forall i: nat | i < BPG
          ensures Bit(PutBit(im, k, true), i) <==> i < k + 1
        {
          PutBitAt(im, k, true, i);
        }
        im := PutBit(im, k, true);
      }
    }
  }

  // ---- descriptors ----

  function FreshDesc(geo: Geometry, g: nat, bc: nat, ic: nat): (ds: Desc)
    requires g < MAX_GROUPS && bc < 0x1_0000 && ic < 0x1_0000
  {
    var n := GroupBlocks(geo, g);
    var d0: Desc := W32(W32(W32(Zeros(64), 0, FirstBlock(g) + 2), 4, FirstBlock(g) + 3), 8, FirstBlock(g) + 4);
    Sealed(g, W16(W16(SetFreeInodes(SetFree(d0, n - MetaIn(n)), IPG - Reserved(g)), 24, bc), 26, ic))
  }

  lemma FreshDescReads(geo: Geometry, g: nat, bc: nat, ic: nat)
    requires g < MAX_GROUPS && bc < 0x1_0000 && ic < 0x1_0000
    ensures var ds, n := FreshDesc(geo, g, bc, ic), GroupBlocks(geo, g);
      && BitmapPtr(ds) == BitmapBlock(g) && InodeMapPtr(ds) == FirstBlock(g) + 3
         && InodeTablePtr(ds) == FirstBlock(g) + 4
      && FreeOf(ds) == n - MetaIn(n) && FreeInodesOf(ds) == IPG - Reserved(g) && UsedDirsOf(ds) == 0
  {
    hide R16, R32, W16, W32, Sealed, SetFree, SetFreeInodes, GroupBlocks;
    var n := GroupBlocks(geo, g);
    var a: Desc := W32(Zeros(64), 0, FirstBlock(g) + 2);
    var b: Desc := W32(a, 4, FirstBlock(g) + 3);
    var c: Desc := W32(b, 8, FirstBlock(g) + 4);
    ZeroFields();
    W32Keeps(Zeros(64), 0, FirstBlock(g) + 2);
    W32Keeps(a, 4, FirstBlock(g) + 3);
    W32Keeps(b, 8, FirstBlock(g) + 4);
    var e := SetFreeInodes(SetFree(c, n - MetaIn(n)), IPG - Reserved(g));
    W16Keeps(e, 24, bc);
    W16Keeps(W16(e, 24, bc), 26, ic);
  }

  lemma FreshDescSums(geo: Geometry, g: nat, bc: nat, ic: nat)
    requires g < MAX_GROUPS && bc < 0x1_0000 && ic < 0x1_0000
    ensures var ds := FreshDesc(geo, g, bc, ic); MapSum(ds) == bc && InodeMapSum(ds) == ic && DescSumOk(g, ds)
  {
    hide R16, W16, W32, Sealed, SetFree, SetFreeInodes, GroupBlocks, DescSumOk, MapSum, InodeMapSum;
    var n := GroupBlocks(geo, g);
    var d0: Desc := W32(W32(W32(Zeros(64), 0, FirstBlock(g) + 2), 4, FirstBlock(g) + 3), 8, FirstBlock(g) + 4);
    SumsSet(g, SetFreeInodes(SetFree(d0, n - MetaIn(n)), IPG - Reserved(g)), bc, ic);
  }

  lemma SumsSet(g: nat, e: Desc, bc: nat, ic: nat)
    requires g < MAX_GROUPS && bc < 0x1_0000 && ic < 0x1_0000
    ensures var ds := Sealed(g, W16(W16(e, 24, bc), 26, ic));
      MapSum(ds) == bc && InodeMapSum(ds) == ic && DescSumOk(g, ds)
  {
    hide R16, W16, W32, Sealed, DescSumOk;
    W16Keeps(W16(e, 24, bc), 26, ic);
    SealedSums(g, W16(W16(e, 24, bc), 26, ic));
  }

  lemma ZeroFields()
    ensures R32(Zeros(64), 32) == 0 && R32(Zeros(64), 36) == 0 && R32(Zeros(64), 40) == 0
    ensures R16(Zeros(64), 16) == 0 && R16(Zeros(64), 48) == 0
  {
  }

  ghost function FreshTable(geo: Geometry, n: nat, bcs: seq<nat>, ics: seq<nat>): (b: Block)
    requires n <= MAX_GROUPS && n <= |bcs| && n <= |ics| && Csums(bcs) && Csums(ics)
  {
    hide FreshDesc, Splice;
    if n == 0 then ZERO_BLOCK
    else Splice(FreshTable(geo, n - 1, bcs, ics), DescOffOf(n - 1), FreshDesc(geo, n - 1, bcs[n - 1], ics[n - 1]))
  }

  ghost predicate Csums(cs: seq<nat>) {
    forall i :: 0 <= i < |cs| ==> cs[i] < 0x1_0000
  }

  /** A descriptor written for group `g` is what every group 64 away finds in the block, too. */
  lemma EntrySplice(b: Block, g: nat, ds: Desc, k: nat)
    ensures EntryOf(Splice(b, DescOffOf(g), ds), k) == if k % 64 == g % 64 then ds else EntryOf(b, k)
  {
    var r := Splice(b, DescOffOf(g), ds);
    if k % 64 < g % 64 {
      assert DescOffOf(k) + 64 <= DescOffOf(g);
    } else if g % 64 < k % 64 {
      assert DescOffOf(g) + 64 <= DescOffOf(k);
    }
  }

  /** The descriptors of the last 64 groups stand in the block. */
  lemma {:induction false} FreshTableAt(geo: Geometry, n: nat, bcs: seq<nat>, ics: seq<nat>, g: nat)
    requires n <= MAX_GROUPS && n <= |bcs| && n <= |ics| && Csums(bcs) && Csums(ics) && g < n <= g + MAX_DESCS
    ensures EntryOf(FreshTable(geo, n, bcs, ics), g) == FreshDesc(geo, g, bcs[g], ics[g])
  {
    hide FreshDesc, Splice, EntryOf, DescOffOf;
    EntrySplice(FreshTable(geo, n - 1, bcs, ics), n - 1, FreshDesc(geo, n - 1, bcs[n - 1], ics[n - 1]), g);
    if g < n - 1 {
      FreshTableAt(geo, n - 1, bcs, ics, g);
    }
  }

  /** The descriptor tells the truth about group `g`. */
  ghost predicate DescOf(ds: Desc, geo: Geometry, g: nat) {
    && BitmapPtr(ds) == BitmapBlock(g) && InodeMapPtr(ds) == FirstBlock(g) + 3 && InodeTablePtr(ds) == FirstBlock(g) + 4
    && FreeOf(ds) == GroupBlocks(geo, g) - MetaIn(GroupBlocks(geo, g)) && FreeInodesOf(ds) == IPG - Reserved(g)
    && UsedDirsOf(ds) == 0
  }

  /** The one block of descriptors mkfs writes, whatever the number of groups: later groups have
      overwritten the entries of earlier ones. */
  ghost predicate TableWritten(b: Block, geo: Geometry) {
    forall g: nat :: g < geo.groups <= g + MAX_DESCS ==> DescOf(EntryOf(b, g), geo, g)
  }

  /** Each descriptor tells the truth about its group. */
  ghost predicate TableOk(b: Block, geo: Geometry) {
    geo.groups <= MAX_DESCS && forall g: nat :: g < geo.groups ==> TableGroup(b, geo, g)
  }

  ghost predicate TableGroup(b: Block, geo: Geometry, g: nat) {
    g < MAX_DESCS && DescOf(DescAt(b, g), geo, g)
  }

  lemma WrittenIsOk(b: Block, geo: Geometry)
    requires TableWritten(b, geo) && geo.groups <= MAX_DESCS
    ensures TableOk(b, geo)
  {
    hide DescOf;
    forall g: nat | g < geo.groups
      ensures TableGroup(b, geo, g)
    {
      assert DescOf(EntryOf(b, g), geo, g);
    }
  }

  /** The descriptors in the block carry their own checksums and those of the bitmaps. */
  ghost predicate TableSums(b: Block, geo: Geometry, bcs: seq<nat>, ics: seq<nat>) {
    |bcs| == |ics| == geo.groups && forall g: nat :: g < geo.groups <= g + MAX_DESCS ==> EntrySums(b, g, bcs[g], ics[g])
  }

  predicate EntrySums(b: Block, g: nat, bc: nat, ic: nat) {
    g < U32_LIMIT && DescSumOk(g, EntryOf(b, g)) && MapSum(EntryOf(b, g)) == bc && InodeMapSum(EntryOf(b, g)) == ic
  }

  /** The sums are those of the bitmaps on the disk. */
  ghost predicate SumsOf(d: Disk, bcs: seq<nat>, ics: seq<nat>) {
    |bcs| == |ics| && forall g: nat :: g < |bcs| ==> MapSums(d, g, bcs[g], ics[g])
  }

  predicate MapSums(d: Disk, g: nat, bc: nat, ic: nat) {
    InodeMapBlock(g) < |d| && bc == BitmapCsum(d[BitmapBlock(g)]) && ic == BitmapCsum(d[InodeMapBlock(g)])
  }

  /** Phase 3 of mkfs_at. */
  method BuildTable(geo: Geometry, bcs: seq<nat>, ics: seq<nat>) returns (table: Block)
    requires LaidOut(geo) && |bcs| == |ics| == geo.groups && Csums(bcs) && Csums(ics)
    ensures TableWritten(table, geo) && TableSums(table, geo, bcs, ics)
  {
    hide MapSum, InodeMapSum, DescSumOk, FreshDesc, Splice, EntryOf, DescOffOf, BitmapPtr, InodeMapPtr, InodeTablePtr,
         FreeOf, FreeInodesOf, GroupBlocks;
    table := ZERO_BLOCK;
    for g := 0 to geo.groups
      invariant table == FreshTable(geo, g, bcs, ics)
    {
      table := Splice(table, DescOffOf(g), FreshDesc(geo, g, bcs[g], ics[g]));
    }
    forall g: nat | g < geo.groups <= g + MAX_DESCS
      ensures DescOf(EntryOf(table, g), geo, g)
    {
      FreshTableAt(geo, geo.groups, bcs, ics, g);
      FreshDescReads(geo, g, bcs[g], ics[g]);
    }
    forall g: nat | g < geo.groups <= g + MAX_DESCS
      ensures EntrySums(table, g, bcs[g], ics[g])
    {
      FreshTableAt(geo, geo.groups, bcs, ics, g);
      FreshDescSums(geo, g, bcs[g], ics[g]);
    }
  }

  // ---- more than 64 groups ----

  /** desc_read of group `g` finds the place of its bitmap. */
  ghost predicate DescReads(d: Disk, g: nat) {
    DescBlockOf(g) < |d| && BitmapPtr(DescIn(d, g)) == BitmapBlock(g)
  }

  /** The driver finds the descriptor of every group exactly on volumes of at most 64 groups. */
  lemma DescriptorsExact(d: Disk, geo: Geometry)
    requires LaidOut(geo) && geo.total <= |d| && TableWritten(d[1], geo)
    ensures (forall g: nat :: g < geo.groups ==> DescReads(d, g)) <==> geo.groups <= MAX_DESCS
  {
    hide BitmapPtr, EntryOf;
    if geo.groups <= MAX_DESCS {
      forall g: nat | g < geo.groups
        ensures DescReads(d, g)
      {
        assert DescOf(EntryOf(d[1], g), geo, g);
      }
    } else {
      FirstOverwritten(d, geo);
      assert !DescReads(d, 0);
    }
  }

  /** The first group whose entry overwrote that of group 0 last. */
  function LastAlike(geo: Geometry): nat
    requires geo.groups >= 1
  {
    64 * ((geo.groups - 1) / 64)
  }

  /** On a larger volume, group 0 is read as a group far behind it. */
  lemma FirstOverwritten(d: Disk, geo: Geometry)
    requires LaidOut(geo) && geo.total <= |d| && TableWritten(d[1], geo) && geo.groups > MAX_DESCS
    ensures LastAlike(geo) >= 64 && BitmapPtr(DescIn(d, 0)) == BitmapBlock(LastAlike(geo)) != BitmapBlock(0)
  {
    LastAlikeIs(geo);
    hide BitmapPtr, EntryOf, LastAlike;
    var g := LastAlike(geo);
    SameEntry(d[1], g);
    assert DescOf(EntryOf(d[1], g), geo, g);
  }

  lemma LastAlikeIs(geo: Geometry)
    requires geo.groups > MAX_DESCS
    ensures var g := LastAlike(geo); g >= 64 && g % 64 == 0 && g < geo.groups <= g + MAX_DESCS
  {
  }

  lemma SameEntry(b: Block, g: nat)
    requires g % 64 == 0
    ensures EntryOf(b, g) == EntryOf(b, 0)
  {
    assert DescOffOf(g) == DescOffOf(0);
  }

  lemma {:induction false} AllBits(b: nat, n: nat)
    requires b < Pow2(n) && forall k: nat :: k < n ==> HasBit(b, k)
    ensures b == Pow2(n) - 1
  {
    if n > 0 {
      assert HasBit(b, 0);
      forall k: nat | k < n - 1
        ensures HasBit(b / 2, k)
      {
        assert HasBit(b, k + 1);
      }
      AllBits(b / 2, n - 1);
    }
  }

  /** Group 64's descriptor is looked for in the block bitmap of group 0, where every bit is set. */
  lemma LateDescriptor(d: Disk, geo: Geometry)
    requires LaidOut(geo) && geo.total <= |d| && BitmapsDone(d, geo, 1)
    ensures DescBlockOf(64) < |d| && BitmapPtr(DescIn(d, 64)) == 0xFFFF_FFFF_FFFF_FFFF
  {
    hide HasBit, GroupBlocks, FreshInodes;
    assert GroupWritten(d, geo, 0);
    FullGroups(geo, 0);
    var bm := d[2];
    forall i: nat | i < 64
      ensures bm[i] == 0xFF
    {
      FullByte(bm, i, GroupBlocks(geo, 0));
    }
    AllOnes(DescIn(d, 64));
  }

  lemma FullByte(bm: Block, i: nat, n: nat)
    requires FreshBits(bm, n) && i < 64 && n >= META_BLOCKS
    ensures bm[i] == 0xFF
  {
    hide HasBit;
    forall k: nat | k < 8
      ensures HasBit(bm[i], k)
    {
      assert Bit(bm, 8 * i + k);
    }
    EightBits(bm[i]);
  }

  lemma EightBits(b: Byte)
    requires forall k: nat :: k < 8 ==> HasBit(b, k)
    ensures b == 0xFF
  {
    hide HasBit;
    assert Pow2(4) == 16;
    assert Pow2(8) == 256;
    AllBits(b, 8);
  }

  lemma AllOnes(ds: Desc)
    requires forall i: nat :: i < 64 ==> ds[i] == 0xFF
    ensures BitmapPtr(ds) == 0xFFFF_FFFF_FFFF_FFFF
  {
  }

  /** So on every volume of more than 64 groups, 65 for one, the descriptors of groups 0 and 64 lead
      the driver astray as soon as the tables are written. */
  method TooManyGroups(v: Device) returns (first: Desc, late: Desc)
    requires v.Valid() && v.making && LaidOut(v.geo) && v.geo.csum && v.geo.total <= |v.d| && v.geo.groups > MAX_DESCS
    modifies v`d, v`log, v`dirs
    ensures BitmapPtr(first) != BitmapBlock(0) && BitmapPtr(late) == 0xFFFF_FFFF_FFFF_FFFF
  {
    hide BitmapPtr, TableWritten, EntryOf, Overwrite, BlocksOf, FreshBits, FreshInodes, GroupBlocks;
    WriteTables(v);
    FirstOverwritten(v.d, v.geo);
    LateDescriptor(v.d, v.geo);
    first := v.DescRead(0);
    late := v.DescRead(64);
  }

  // ---- the superblock ----

  function SuperInodes(geo: Geometry): (n: nat)
    requires 1 <= geo.groups <= MAX_GROUPS
    ensures n < U32_LIMIT
  {
    8192 * geo.groups - 10
  }

  const LABEL: seq<Byte> :=
    [0x53, 0x4F, 0x4C, 0x41, 0x52, 0x4F, 0x53, 0x20, 0x20, 0x20, 0x20, 0x20, 0x20, 0x20, 0x20, 0x20]

  /** Counts and sizes. */
  function SbCounts(geo: Geometry): (sb: seq<Byte>)
    requires geo.total < U32_LIMIT && 0 <= SuperFree(geo) < U32_LIMIT && 1 <= geo.groups <= MAX_GROUPS
    ensures |sb| == 1024
  {
    hide W32;
    var a := W32(W32(Zeros(1024), 0, 8192 * geo.groups), 4, geo.total);
    var c := W32(W32(a, 12, SuperFree(geo)), 16, SuperInodes(geo));
    W32(W32(W32(W32(W32(c, 24, 2), 28, 2), 32, BPG), 36, BPG), 40, IPG)
  }

  /** Magic number, revision and features. */
  function SbFeatures(sb: seq<Byte>): (r: seq<Byte>)
    requires |sb| == 1024
    ensures |r| == 1024
  {
    hide W16, W32;
    var a := W32(W16(W16(W16(sb, 54, 0xFFFF), 56, SB_MAGIC), 58, 1), 76, 1);
    W32(W32(W16(W32(a, 84, 11), 88, 256), 96, INCOMPAT), 100, RO_COMPAT)
  }

  /** Names, the journal inode, and the sizes of other records. */
  function SbNames(sb: seq<Byte>): (r: seq<Byte>)
    requires |sb| == 1024
    ensures |r| == 1024
    ensures forall i :: 0 <= i < 1024 && (i < 104 || 136 <= i < 280 || 328 <= i < 344 || 371 <= i) ==> r[i] == sb[i]
  {
    var a := W32(Splice(Splice(sb, 104, Uuid()), 120, LABEL), 280, 8)[308 := 1];
    W16(W16(W32(W16(a, 310, 64), 324, RING_BLOCKS), 344, 28), 346, 32)[370 := 1]
  }

  lemma SbCountsRead(geo: Geometry)
    requires geo.total < U32_LIMIT && 0 <= SuperFree(geo) < U32_LIMIT && 1 <= geo.groups <= MAX_GROUPS
    ensures var sb := SbCounts(geo);
      && R32(sb, 4) == geo.total && R32(sb, 12) == SuperFree(geo) && R32(sb, 16) == SuperInodes(geo)
      && R32(sb, 24) == 2 && R32(sb, 32) == BPG && R32(sb, 332) == 0 && R32(sb, 340) == 0
  {
    SuperZero();
    hide R16, R32, W32, SuperInodes, SuperFree;
    var a := W32(Zeros(1024), 0, 8192 * geo.groups);
    var b := W32(a, 4, geo.total);
    var c := W32(b, 12, SuperFree(geo));
    var e := W32(c, 16, SuperInodes(geo));
    var f := W32(e, 24, 2);
    var g := W32(f, 28, 2);
    var h := W32(g, 32, BPG);
    var i := W32(h, 36, BPG);
    W32Keeps(Zeros(1024), 0, 8192 * geo.groups);
    W32Keeps(a, 4, geo.total);
    W32Keeps(b, 12, SuperFree(geo));
    W32Keeps(c, 16, SuperInodes(geo));
    W32Keeps(e, 24, 2);
    W32Keeps(f, 28, 2);
    W32Keeps(g, 32, BPG);
    W32Keeps(h, 36, BPG);
    W32Keeps(i, 40, IPG);
  }

  lemma SbFeaturesRead(sb: seq<Byte>)
    requires |sb| == 1024
    ensures var r := SbFeatures(sb);
      && R16(r, 56) == SB_MAGIC && R32(r, 96) == INCOMPAT && R32(r, 100) == RO_COMPAT
      && R32(r, 4) == R32(sb, 4) && R32(r, 12) == R32(sb, 12) && R32(r, 16) == R32(sb, 16) && R32(r, 24) == R32(sb, 24)
      && R32(r, 32) == R32(sb, 32) && R32(r, 332) == R32(sb, 332) && R32(r, 340) == R32(sb, 340)
  {
    hide R16, R32, W16, W32;
    var a := W16(sb, 54, 0xFFFF);
    var b := W16(a, 56, SB_MAGIC);
    var c := W16(b, 58, 1);
    var e := W32(c, 76, 1);
    var f := W32(e, 84, 11);
    var g := W16(f, 88, 256);
    var h := W32(g, 96, INCOMPAT);
    W16Keeps(sb, 54, 0xFFFF);
    W16Keeps(a, 56, SB_MAGIC);
    W16Keeps(b, 58, 1);
    W32Keeps(c, 76, 1);
    W32Keeps(e, 84, 11);
    W16Keeps(f, 88, 256);
    W32Keeps(g, 96, INCOMPAT);
    W32Keeps(h, 100, RO_COMPAT);
  }

  lemma SbNamesRead(sb: seq<Byte>)
    requires |sb| == 1024
    ensures SameHeader(sb, SbNames(sb))
    ensures var r := SbNames(sb); R32(r, 12) == R32(sb, 12) && R32(r, 16) == R32(sb, 16) && R32(r, 340) == R32(sb, 340)
  {
    hide SbNames;
  }

  function FreshSb(geo: Geometry): (sb: seq<Byte>)
    requires geo.total < U32_LIMIT && 0 <= SuperFree(geo) < U32_LIMIT && 1 <= geo.groups <= MAX_GROUPS
    ensures |sb| == 1024
  {
    SbNames(SbFeatures(SbCounts(geo)))
  }

  /** Phase 4 of mkfs_at. */
  function FreshSuper(b: Block, geo: Geometry, csum: bool): Block
    requires geo.total < U32_LIMIT && 0 <= SuperFree(geo) < U32_LIMIT && 1 <= geo.groups <= MAX_GROUPS
  {
    Splice(b, SB_AT, SbSealed(FreshSb(geo), csum))
  }

  lemma FreshSbReads(geo: Geometry)
    requires geo.total < U32_LIMIT && 0 <= SuperFree(geo) < U32_LIMIT && 1 <= geo.groups <= MAX_GROUPS
    ensures var sb := FreshSb(geo);
      && R32(sb, 4) == geo.total && R32(sb, 12) == SuperFree(geo) && R32(sb, 16) == SuperInodes(geo)
      && R32(sb, 24) == 2 && R32(sb, 32) == BPG && R32(sb, 332) == 0 && R32(sb, 340) == 0
      && R16(sb, 56) == SB_MAGIC && R32(sb, 96) == INCOMPAT && R32(sb, 100) == RO_COMPAT
  {
    hide R16, R32, SbCounts, SbFeatures, SbNames, SuperInodes;
    SbCountsRead(geo);
    SbFeaturesRead(SbCounts(geo));
    SbNamesRead(SbFeatures(SbCounts(geo)));
  }

  lemma FreshSuperReads(b: Block, geo: Geometry, csum: bool)
    requires geo.total < U32_LIMIT && 0 <= SuperFree(geo) < U32_LIMIT && 1 <= geo.groups <= MAX_GROUPS
    ensures SbFree(FreshSuper(b, geo, csum)) == SuperFree(geo) && SbInodes(FreshSuper(b, geo, csum)) == SuperInodes(geo)
  {
    hide R16, R32, FreshSb, SbSealed, Splice, SbFree, SbInodes, SuperInodes;
    FreshSbReads(geo);
    SbSpliceReads(b, SbSealed(FreshSb(geo), csum));
    SbInodesSplice(b, SbSealed(FreshSb(geo), csum));
  }

  /** The superblock of mkfs passes all checks of mount_at. */
  lemma FreshSuperMounts(b: Block, geo: Geometry, csum: bool)
    requires LaidOut(geo) && geo.csum && csum
    ensures 0 <= SuperFree(geo) < U32_LIMIT && geo.total < U32_LIMIT && Mounts(FreshSuper(b, geo, csum), geo)
  {
    SuperFits(geo);
    hide R16, R32, FreshSb, SbSealed, Splice, Mounts, SbSumOk, SbOf, CheckWith, HasBit, Only, CheckSuper;
    FreshSbReads(geo);
    SbSealedReads(FreshSb(geo), csum);
    SpliceSb(b, SbSealed(FreshSb(geo), csum));
    FreshChecks(SbSealed(FreshSb(geo), csum), geo);
    MountsIff(FreshSuper(b, geo, csum), geo);
  }

  lemma FreshChecks(sb: seq<Byte>, geo: Geometry)
    requires |sb| == 1024 && LaidOut(geo) && geo.csum
    requires R32(sb, 4) == geo.total && R32(sb, 24) == 2 && R32(sb, 32) == BPG && R32(sb, 332) == 0
      && R16(sb, 56) == SB_MAGIC && R32(sb, 96) == INCOMPAT && R32(sb, 100) == RO_COMPAT
    ensures CheckWith(sb, true) == Ok(geo)
  {
    hide R16, R32, HasBit;
    GroupCount(geo);
    FeatureBits();
  }

  lemma FeatureBits()
    ensures HasBit(INCOMPAT, 10)
  {
    assert HasBit(0x4C2 / 2 / 2 / 2 / 2 / 2, 5);
  }

  lemma GroupCount(geo: Geometry)
    requires LaidOut(geo)
    ensures (geo.total + BPG - 1) / BPG == geo.groups
  {
  }

  lemma SuperZero()
    ensures R32(Zeros(1024), 332) == 0 && R32(Zeros(1024), 340) == 0
  {
  }

  // ---- the whole ----

  ghost predicate BitmapsDone(d: Disk, geo: Geometry, n: nat) {
    forall g: nat :: g < n ==> GroupWritten(d, geo, g)
  }

  ghost predicate GroupWritten(d: Disk, geo: Geometry, g: nat) {
    && BitmapBlock(g) < |d| && FreshBits(d[BitmapBlock(g)], GroupBlocks(geo, g))
    && InodeMapBlock(g) < |d| && FreshInodes(d[InodeMapBlock(g)], g)
  }

  /** The metadata and the first `k` blocks behind it are used, and the ten reserved inodes. */
  ghost predicate FreshUse(d: Disk, geo: Geometry, k: nat) {
    FreshBlocks(d, geo, k) && FreshMaps(d, geo)
  }

  ghost predicate FreshBlocks(d: Disk, geo: Geometry, k: nat) {
    forall x: nat :: x < geo.total ==> (Used(d, x) <==> IsMeta(x) || RING_AT <= x < RING_AT + k)
  }

  ghost predicate FreshMaps(d: Disk, geo: Geometry) {
    forall g: nat :: g < geo.groups ==> FreshMap(d, g)
  }

  ghost predicate FreshMap(d: Disk, g: nat) {
    InodeMapBlock(g) < |d| && FreshInodes(d[InodeMapBlock(g)], g)
  }

  lemma ToggledMaps(d: Disk, geo: Geometry, blk: nat, on: bool, csum: bool)
    requires FreshMaps(d, geo) && Markable(d, blk)
    ensures FreshMaps(Toggled(d, blk, on, csum), geo)
  {
    hide Toggled, FreshInodes, Markable;
    forall g: nat | g < geo.groups
      ensures FreshMap(Toggled(d, blk, on, csum), g)
    {
      assert FreshMap(d, g);
      PartsBlock(g, 3);
      PartsBlock(GroupOf(blk), 2);
      ToggleFrame(d, blk, on, csum, InodeMapBlock(g));
    }
  }

  lemma RingHeadMaps(d: Disk, geo: Geometry, b: Block)
    requires FreshMaps(d, geo) && RING_AT < |d|
    ensures FreshMaps(Put(d, RING_AT, b), geo)
  {
    hide Put, FreshInodes;
    forall g: nat | g < geo.groups
      ensures FreshMap(Put(d, RING_AT, b), g)
    {
      assert FreshMap(d, g);
      PartsBlock(g, 3);
      PartsBlock(0, RING_AT);
      PutAt(d, RING_AT, b, InodeMapBlock(g));
    }
  }

  lemma MapsDone(d: Disk, geo: Geometry)
    requires BitmapsDone(d, geo, geo.groups)
    ensures FreshMaps(d, geo)
  {
    hide FreshInodes, FreshBits;
    forall g: nat | g < geo.groups
      ensures FreshMap(d, g)
    {
      assert GroupWritten(d, geo, g);
    }
  }

  lemma {:induction false} TableSum(b: Block, geo: Geometry, n: nat)
    requires TableOk(b, geo) && n <= geo.groups
    ensures FreeSum(b, n) == FreshSum(geo, n)
  {
    hide FreeOf, DescAt, BitmapPtr, InodeMapPtr, InodeTablePtr, GroupBlocks;
    if n > 0 {
      TableSum(b, geo, n - 1);
      assert TableGroup(b, geo, n - 1);
    }
  }

  lemma {:induction false} TableInodes(b: Block, geo: Geometry, n: nat)
    requires TableOk(b, geo) && 1 <= n <= geo.groups
    ensures InodeSum(b, n) == 8192 * n - 10
  {
    hide FreeOf, FreeInodesOf, DescAt, BitmapPtr, InodeMapPtr, InodeTablePtr, GroupBlocks;
    assert TableGroup(b, geo, n - 1);
    if n > 1 {
      TableInodes(b, geo, n - 1);
    } else {
      assert InodeSum(b, 0) == 0;
    }
  }

  lemma TablesInodes(d: Disk, geo: Geometry)
    requires ValidGeo(geo) && geo.total <= |d|
    requires BitmapsDone(d, geo, geo.groups) && TableOk(d[1], geo) && SbInodes(d[0]) == SuperInodes(geo)
    ensures InodeCounts(d, geo)
  {
    hide FreeOf, FreeInodesOf, DescAt, BitmapPtr, InodeMapPtr, InodeTablePtr, GroupBlocks, SbInodes, FreshBits,
         FreshInodes, ZeroBits, InodeSum;
    TableInodes(d[1], geo, geo.groups);
    forall g: nat | g < geo.groups
      ensures InodesOk(d, g)
    {
      assert GroupWritten(d, geo, g) && TableGroup(d[1], geo, g);
      FreshInodesZero(d[InodeMapBlock(g)], g);
    }
  }

  lemma TablesSum(d: Disk, geo: Geometry, bcs: seq<nat>, ics: seq<nat>)
    requires ValidGeo(geo) && geo.total <= |d| && Mounts(d[0], geo)
    requires TableSums(d[1], geo, bcs, ics) && SumsOf(d, bcs, ics)
    ensures Sums(d, geo)
  {
    hide Mounts, DescSumOk, MapSum, InodeMapSum, BitmapCsum, EntryOf, DescAt, BitmapBlock, InodeMapBlock;
    forall g: nat | g < geo.groups
      ensures SumsOk(d, g)
    {
      assert EntrySums(d[1], g, bcs[g], ics[g]) && MapSums(d, g, bcs[g], ics[g]);
      FirstBlockDescs(d, g);
      MapOrder(g);
    }
  }

  lemma TablesAccount(d: Disk, geo: Geometry)
    requires ValidGeo(geo) && geo.total <= |d| && Sums(d, geo)
    requires BitmapsDone(d, geo, geo.groups) && TableOk(d[1], geo) && SbFree(d[0]) == SuperFree(geo)
      && SbInodes(d[0]) == SuperInodes(geo)
    ensures Accounting(d, geo) && FreshUse(d, geo, 0)
  {
    TablesInodes(d, geo);
    MapsDone(d, geo);
    hide FreshMaps, Sums;
    hide InodeCounts, FreshInodes, FreeInodesOf, SbInodes;
    hide FreeOf, DescAt, BitmapPtr, InodeMapPtr, InodeTablePtr, GroupBlocks, SbFree, FreshBits, ZeroBits, Used,
         FreeSum, FreshSum;
    TableSum(d[1], geo, geo.groups);
    FullGroups(geo, geo.groups - 1);
    SuperCountExact(geo);
    forall g: nat | g < geo.groups
      ensures GroupOk(d, geo, g)
    {
      FullGroups(geo, g);
      assert TableGroup(d[1], geo, g) && GroupWritten(d, geo, g);
      FreshZeroBits(d[BitmapBlock(g)], GroupBlocks(geo, g));
    }
    forall x: nat | x < geo.total
      ensures Used(d, x) <==> IsMeta(x)
    {
      FreshUsed(d, geo, x);
    }
  }

  lemma FreshUsed(d: Disk, geo: Geometry, x: nat)
    requires ValidGeo(geo) && geo.total <= |d| && BitmapsDone(d, geo, geo.groups) && x < geo.total
    ensures Used(d, x) <==> IsMeta(x)
  {
    hide Bit, BitOf, GroupBlocks;
    HasBitmap(geo, x);
    InGroup(geo, x);
    FullGroups(geo, GroupOf(x));
    assert GroupWritten(d, geo, GroupOf(x));
  }

  /** Writing the two bitmaps of group `g` completes the first `g + 1` groups. */
  lemma BitmapsStep(d: Disk, geo: Geometry, g: nat, bm: Block, im: Block)
    requires BitmapsDone(d, geo, g) && FirstBlock(g) + 3 < |d| && FreshBits(bm, GroupBlocks(geo, g))
      && FreshInodes(im, g)
    ensures BitmapsDone(Put(Put(d, BitmapBlock(g), bm), FirstBlock(g) + 3, im), geo, g + 1)
  {
    hide FreshBits, FreshInodes, GroupBlocks, Put;
    var d1 := Put(d, BitmapBlock(g), bm);
    var e := Put(d1, FirstBlock(g) + 3, im);
    forall k: nat | k < g + 1
      ensures GroupWritten(e, geo, k)
    {
      assert k < g ==> GroupWritten(d, geo, k);
      PutAt(d, BitmapBlock(g), bm, BitmapBlock(k));
      PutAt(d1, FirstBlock(g) + 3, im, BitmapBlock(k));
      PutAt(d, BitmapBlock(g), bm, InodeMapBlock(k));
      PutAt(d1, FirstBlock(g) + 3, im, InodeMapBlock(k));
    }
  }

  lemma BitmapsKept(d: Disk, geo: Geometry, n: nat, x: nat, b: Block)
    requires BitmapsDone(d, geo, n) && x < 2 && x < |d|
    ensures BitmapsDone(Put(d, x, b), geo, n)
  {
    hide FreshBits, FreshInodes, GroupBlocks;
    forall g: nat | g < n
      ensures GroupWritten(Put(d, x, b), geo, g)
    {
      assert GroupWritten(d, geo, g);
    }
  }

  lemma NoBitmaps(d: Disk, geo: Geometry)
    ensures BitmapsDone(d, geo, 0)
  {
  }

  lemma SuperFits(geo: Geometry)
    requires LaidOut(geo)
    ensures 0 <= SuperFree(geo) < U32_LIMIT && geo.total < U32_LIMIT
  {
  }

  /** Phase 2: the bitmaps of one group. */
  method WriteGroupBitmaps(v: Device, g: nat) returns (bc: nat, ic: nat)
    requires v.Valid() && LaidOut(v.geo) && v.geo.total <= |v.d| && g < v.geo.groups && BitmapsDone(v.d, v.geo, g)
    modifies v`d, v`log
    ensures v.Valid() && OnlyMeta(old(v.d), v.d) && BitmapsDone(v.d, v.geo, g + 1) && bc < 0x1_0000 && ic < 0x1_0000
    ensures MapSums(v.d, g, bc, ic) && forall h: nat :: h != g ==> MapsStay(old(v.d), v.d, h)
  {
    hide FreshBits, FreshInodes, BitmapsDone, Put, GroupBlocks, Overwrite, BlocksOf, BitmapCsum, OnlyMeta;
    FullGroups(v.geo, g);
    var bm := BuildBitmap(v.geo, g);
    var im := BuildInodeMap(g);
    BitmapsStep(v.d, v.geo, g, bm, im);
    ghost var d := v.d;
    GroupMeta(g);
    MetaWritten(d, d, BitmapBlock(g), bm);
    MetaWritten(d, Put(d, BitmapBlock(g), bm), FirstBlock(g) + 3, im);
    v.WriteBlock(BitmapBlock(g), bm);
    v.WriteBlock(FirstBlock(g) + 3, im);
    bc, ic := BitmapCsum(bm), BitmapCsum(im);
    MapsPut(d, g, bm, im);
  }

  /** The two bitmaps of the group are as they were. */
  predicate MapsStay(d: Disk, e: Disk, h: nat) {
    InodeMapBlock(h) < |d| == |e| ==>
      e[BitmapBlock(h)] == d[BitmapBlock(h)] && e[InodeMapBlock(h)] == d[InodeMapBlock(h)]
  }

  lemma MapsPut(d: Disk, g: nat, bm: Block, im: Block)
    requires InodeMapBlock(g) < |d|
    ensures var e := Put(Put(d, BitmapBlock(g), bm), FirstBlock(g) + 3, im);
      MapSums(e, g, BitmapCsum(bm), BitmapCsum(im)) && forall h: nat :: h != g ==> MapsStay(d, e, h)
  {
    hide BitmapCsum;
  }

  lemma SumsStep(d: Disk, e: Disk, bcs: seq<nat>, ics: seq<nat>, bc: nat, ic: nat)
    requires SumsOf(d, bcs, ics) && |e| == |d| && MapSums(e, |bcs|, bc, ic)
    requires forall h: nat :: h != |bcs| ==> MapsStay(d, e, h)
    ensures SumsOf(e, bcs + [bc], ics + [ic])
  {
    hide BitmapCsum, BitmapBlock, InodeMapBlock;
    forall g: nat | g < |bcs| + 1
      ensures MapSums(e, g, (bcs + [bc])[g], (ics + [ic])[g])
    {
      if g < |bcs| {
        assert MapSums(d, g, bcs[g], ics[g]) && MapsStay(d, e, g);
        MapOrder(g);
      }
    }
  }

  lemma SumsLater(d: Disk, bcs: seq<nat>, ics: seq<nat>, x: nat, b: Block)
    requires SumsOf(d, bcs, ics) && x < 2 && x < |d|
    ensures SumsOf(Put(d, x, b), bcs, ics)
  {
    hide BitmapCsum;
    forall g: nat | g < |bcs|
      ensures MapSums(Put(d, x, b), g, bcs[g], ics[g])
    {
      assert MapSums(d, g, bcs[g], ics[g]);
    }
  }

  /** Only metadata blocks were written. */
  ghost predicate OnlyMeta(d: Disk, e: Disk) {
    |e| == |d| && forall x: nat :: x < |d| && !IsMeta(x) ==> e[x] == d[x]
  }

  lemma MetaWritten(d: Disk, e: Disk, x: nat, b: Block)
    requires x < |e| && IsMeta(x) && (e == d || OnlyMeta(d, e))
    ensures OnlyMeta(d, Put(e, x, b))
  {
  }

  lemma GroupMeta(g: nat)
    ensures IsMeta(BitmapBlock(g)) && IsMeta(FirstBlock(g) + 3) && IsMeta(0) && IsMeta(1)
  {
  }

  lemma MetaTrans(d: Disk, e: Disk, f: Disk)
    requires OnlyMeta(d, e) && OnlyMeta(e, f)
    ensures OnlyMeta(d, f)
  {
  }

  method WriteBitmaps(v: Device) returns (bcs: seq<nat>, ics: seq<nat>)
    requires v.Valid() && LaidOut(v.geo) && v.geo.total <= |v.d|
    modifies v`d, v`log
    ensures v.Valid() && OnlyMeta(old(v.d), v.d) && BitmapsDone(v.d, v.geo, v.geo.groups)
    ensures |bcs| == |ics| == v.geo.groups && Csums(bcs) && Csums(ics) && SumsOf(v.d, bcs, ics)
  {
    hide BitmapsDone, LaidOut, Overwrite, IsMeta, MapSums, MapsStay;
    bcs, ics := [], [];
    NoBitmaps(v.d, v.geo);
    var g := 0;
    while g < v.geo.groups
      invariant g <= v.geo.groups && |bcs| == |ics| == g && Csums(bcs) && Csums(ics)
      invariant v.Valid() && OnlyMeta(old(v.d), v.d) && BitmapsDone(v.d, v.geo, g) && SumsOf(v.d, bcs, ics)
    {
      ghost var d := v.d;
      var bc, ic := WriteGroupBitmaps(v, g);
      MetaTrans(old(v.d), d, v.d);
      SumsStep(d, v.d, bcs, ics, bc, ic);
      bcs, ics := bcs + [bc], ics + [ic];
      g := g + 1;
    }
  }

  /** Phases 2 to 4 of mkfs_at: bitmaps, descriptors, superblock, on volumes of any size. While the
      descriptors fit their block, all counters are right. */
  method WriteTables(v: Device)
    requires v.Valid() && v.making && LaidOut(v.geo) && v.geo.csum && v.geo.total <= |v.d|
    modifies v`d, v`log, v`dirs
    ensures v.Valid() && OnlyMeta(old(v.d), v.d) && (ValidGeo(v.geo) ==> DirsOf(v.dirs, v.geo, 0))
    ensures BitmapsDone(v.d, v.geo, v.geo.groups) && TableWritten(v.d[1], v.geo) && SbFree(v.d[0]) == SuperFree(v.geo)
      && SbInodes(v.d[0]) == SuperInodes(v.geo) && Mounts(v.d[0], v.geo)
    ensures ValidGeo(v.geo) ==> Accounting(v.d, v.geo) && FreshUse(v.d, v.geo, 0)
  {
    hide Accounting, FreshUse, BitmapsDone, TableWritten, FreshSuper, Put, Overwrite, BlocksOf, SbFree, SbInodes,
         SuperInodes, OnlyMeta, IsMeta, TableSums, SumsOf, Mounts, Counts;
    var geo := v.geo;
    v.dirs := [];
    var bcs, ics := WriteBitmaps(v);
    ghost var d := v.d;
    var table := BuildTable(geo, bcs, ics);
    BitmapsKept(d, geo, geo.groups, 1, table);
    SumsLater(d, bcs, ics, 1, table);
    PutAt(d, 1, table, 1);
    GroupMeta(0);
    MetaWritten(d, d, 1, table);
    v.WriteBlock(1, table);
    var b := v.ReadBlock(0);
    SuperFits(geo);
    FreshSuperReads(b, geo, v.csum);
    FreshSuperMounts(b, geo, v.csum);
    var sb := FreshSuper(b, geo, v.csum);
    ghost var e := v.d;
    BitmapsKept(e, geo, geo.groups, 0, sb);
    SumsLater(e, bcs, ics, 0, sb);
    PutAt(e, 0, sb, 0);
    PutAt(e, 0, sb, 1);
    MetaWritten(d, e, 0, sb);
    v.WriteBlock(0, sb);
    MetaTrans(old(v.d), d, v.d);
    if ValidGeo(geo) {
      WrittenIsOk(v.d[1], geo);
      TablesSum(v.d, geo, bcs, ics);
      TablesAccount(v.d, geo);
      NoneCounted(v.d[1], geo, DirsIn(v.d[1]));
      v.dirs := DirsIn(v.d[1]);
    }
  }

  /** The first group counts `k` directories, and the others none. */
  ghost predicate DirsOf(dirs: seq<nat>, geo: Geometry, k: nat) {
    geo.groups <= |dirs| && forall g: nat :: g < geo.groups ==> dirs[g] == if g == 0 then k else 0
  }

  lemma NoneCounted(b: Block, geo: Geometry, dirs: seq<nat>)
    requires TableOk(b, geo) && Counts(b, dirs)
    ensures DirsOf(dirs, geo, 0) && dirs != []
  {
    hide DescAt, UsedDirsOf, BitmapPtr, InodeMapPtr, InodeTablePtr, FreeOf, FreeInodesOf;
    forall g: nat | g < geo.groups
      ensures dirs[g] == 0
    {
      assert TableGroup(b, geo, g);
      CountAt(b, dirs, g);
    }
  }

  // ---- phase 1 ----

  predicate ZeroAt(d: Disk, g: nat, b: nat) {
    FirstBlock(g) + b < |d| && d[FirstBlock(g) + b] == ZERO_BLOCK
  }

  /** The metadata blocks of one group are zeroed, up to the end of the device. */
  method ZeroGroup(v: Device, g: nat) returns (ok: bool)
    requires v.Valid() && v.making && v.dirs == []
    modifies v`d, v`log
    ensures v.Valid() && OnlyMeta(old(v.d), v.d) && (ok <==> FirstBlock(g) + META_BLOCKS <= |v.d|)
    ensures ok ==> forall b: nat :: b < META_BLOCKS ==> ZeroAt(v.d, g, b)
  {
    hide Overwrite, BlocksOf, FirstBlock, Put, OnlyMeta, ZeroAt;
    MetaRefl(v.d);
    for b := 0 to META_BLOCKS
      invariant v.Valid() && OnlyMeta(old(v.d), v.d) && |v.d| == |old(v.d)| && (b > 0 ==> FirstBlock(g) + b <= |v.d|)
      invariant forall k: nat :: k < b ==> ZeroAt(v.d, g, k)
    {
      ghost var d := v.d;
      if FirstBlock(g) + b < |d| {
        ZeroStep(old(v.d), d, g, b);
      }
      ok := v.TryWrite(FirstBlock(g) + b, ZERO_BLOCK);
      if !ok {
        return false;
      }
    }
    return true;
  }

  lemma ZeroStep(d0: Disk, d: Disk, g: nat, b: nat)
    requires OnlyMeta(d0, d) && b < META_BLOCKS && FirstBlock(g) + b < |d| && forall k: nat :: k < b ==> ZeroAt(d, g, k)
    ensures var e := Put(d, FirstBlock(g) + b, ZERO_BLOCK);
      OnlyMeta(d0, e) && forall k: nat :: k < b + 1 ==> ZeroAt(e, g, k)
  {
    hide FirstBlock;
    PartsBlock(g, b);
    MetaWritten(d0, d, FirstBlock(g) + b, ZERO_BLOCK);
    var e := Put(d, FirstBlock(g) + b, ZERO_BLOCK);
    forall k: nat | k < b + 1
      ensures ZeroAt(e, g, k)
    {
      assert k < b ==> ZeroAt(d, g, k);
    }
  }

  /** Phase 1 of mkfs_at: it fails exactly if the last group cannot hold its metadata. */
  method ZeroMeta(v: Device) returns (ok: bool)
    requires v.Valid() && v.making && v.dirs == [] && Covers(v.geo) && v.geo.total == |v.d|
    modifies v`d, v`log
    ensures v.Valid() && OnlyMeta(old(v.d), v.d) && |v.d| == |old(v.d)|
    ensures ok <==> FirstBlock(v.geo.groups - 1) + META_BLOCKS <= v.geo.total
  {
    hide Overwrite, BlocksOf, OnlyMeta;
    ghost var d0 := v.d;
    MetaRefl(d0);
    for g := 0 to v.geo.groups
      invariant v.Valid() && OnlyMeta(d0, v.d) && |v.d| == |d0|
      invariant g > 0 ==> FirstBlock(g - 1) + META_BLOCKS <= |d0|
    {
      ghost var d := v.d;
      ok := ZeroGroup(v, g);
      MetaSize(d, v.d);
      MetaTrans(d0, d, v.d);
      if !ok {
        return false;
      }
    }
    return true;
  }

  lemma MetaRefl(d: Disk)
    ensures OnlyMeta(d, d)
  {
  }

  lemma MetaSize(d: Disk, e: Disk)
    requires OnlyMeta(d, e)
    ensures |e| == |d|
  {
  }

  // ---- the journal area ----

  lemma NextIsFree(d: Disk, geo: Geometry, k: nat, blk: nat)
    requires ValidGeo(geo) && RING_AT + RING_BLOCKS <= GroupBlocks(geo, 0) && k < RING_BLOCKS
    requires FreshUse(d, geo, k) && IsLowest(d, geo, blk)
    ensures blk == RING_AT + k
  {
    hide Used;
    FullGroups(geo, 0);
    assert !Used(d, RING_AT + k) && !Used(d, blk);
  }

  lemma NotFull(d: Disk, geo: Geometry, k: nat)
    requires ValidGeo(geo) && RING_AT + RING_BLOCKS <= GroupBlocks(geo, 0) && k < RING_BLOCKS && FreshUse(d, geo, k)
    ensures !Full(d, geo)
  {
    hide Used;
    FullGroups(geo, 0);
    assert !Used(d, RING_AT + k);
  }

  lemma OneMoreUsed(d: Disk, geo: Geometry, k: nat, csum: bool)
    requires FreshUse(d, geo, k) && Markable(d, RING_AT + k)
    ensures FreshUse(Toggled(d, RING_AT + k, true, csum), geo, k + 1)
  {
    hide Toggled, Markable, FreshMaps, FreshBlocks;
    ToggledMaps(d, geo, RING_AT + k, true, csum);
    OneMoreBlock(d, geo, k, csum);
  }

  lemma OneMoreBlock(d: Disk, geo: Geometry, k: nat, csum: bool)
    requires FreshBlocks(d, geo, k) && Markable(d, RING_AT + k)
    ensures FreshBlocks(Toggled(d, RING_AT + k, true, csum), geo, k + 1)
  {
    hide Used, Toggled, Markable, BitOf;
    forall x: nat | x < geo.total
      ensures Used(Toggled(d, RING_AT + k, true, csum), x) <==> IsMeta(x) || RING_AT <= x < RING_AT + k + 1
    {
      ToggledUsed(d, RING_AT + k, true, csum, x);
    }
  }

  lemma ToggleMeta(d: Disk, blk: nat, on: bool, csum: bool)
    requires Markable(d, blk)
    ensures OnlyMeta(d, Toggled(d, blk, on, csum))
  {
    hide Toggled, Markable, IsMeta;
    forall x: nat | x < |d| && !IsMeta(x)
      ensures Toggled(d, blk, on, csum)[x] == d[x]
    {
      GroupMeta(GroupOf(blk));
      ToggleFrame(d, blk, on, csum, x);
    }
  }

  /** One alloc_block of phase 6: the next block in line. */
  method AllocRing(v: Device, ghost k: nat) returns (blk: nat)
    requires v.Valid() && Accounting(v.d, v.geo) && FreshUse(v.d, v.geo, k) && k < RING_BLOCKS
    requires RING_AT + RING_BLOCKS <= GroupBlocks(v.geo, 0)
    modifies v`d, v`log
    ensures v.Valid() && Accounting(v.d, v.geo) && FreshUse(v.d, v.geo, k + 1) && |v.d| == |old(v.d)|
    ensures blk == RING_AT + k && OnlyMeta(old(v.d), v.d)
  {
    assert ValidGeo(v.geo);
    hide Accounting, FreshUse, Toggled, Markable, Full, IsLowest, Overwrite, BlocksOf, ValidGeo, GroupBlocks,
         OnlyMeta;
    ghost var d0 := v.d;
    NotFull(d0, v.geo, k);
    var r := v.AllocBlock();
    if r.Ok? {
      blk := r.value;
      NextIsFree(d0, v.geo, k, blk);
      OneMoreUsed(d0, v.geo, k, v.csum);
      ToggleMeta(d0, blk, true, v.csum);
    }
  }

  lemma RingHeadKept(d: Disk, geo: Geometry, b: Block)
    requires Accounting(d, geo) && FreshUse(d, geo, 1) && RING_AT + RING_BLOCKS <= GroupBlocks(geo, 0)
    ensures RING_AT < |d| && Accounting(Put(d, RING_AT, b), geo) && FreshUse(Put(d, RING_AT, b), geo, 1)
  {
    FullGroups(geo, 0);
    hide Accounting, Used, Put;
    assert Accounting(d, geo) && RING_AT < |d| && BitOf(RING_AT) > 3;
    RingHeadMaps(d, geo, b);
    hide FreshMaps;
    DataWriteKeeps(d, geo, RING_AT, b);
  }

  /** The journal superblock mkfs writes: sequence number 1, and start 0. */
  function JournalSuper(): (b: Block) {
    hide W32;
    var head := W32(W32(W32(W32(W32(ZERO_BLOCK, 0, JournalFormat.MAGIC), 4, 1), 8, 1), 12, 0), 16, 0);
    W32(W32(W32(W32(head, 64, 4096), 68, 1024), 72, 1), 76, 1023)
  }

  lemma JournalSuperReads()
    ensures var b := JournalSuper();
            R32(b, 0) == JournalFormat.MAGIC && JournalFormat.SuperSeq(b) == 1 && JournalFormat.SuperStart(b) == 1
  {
    hide R32, W32;
    var a := W32(ZERO_BLOCK, 0, JournalFormat.MAGIC);
    var b := W32(W32(a, 4, 1), 8, 1);
    var c := W32(W32(b, 12, 0), 16, 0);
    var d := W32(W32(W32(c, 64, 4096), 68, 1024), 72, 1);
    W32Keeps(a, 4, 1);
    W32Keeps(W32(a, 4, 1), 8, 1);
    W32Keeps(b, 12, 0);
    W32Keeps(W32(b, 12, 0), 16, 0);
    W32Keeps(c, 64, 4096);
    W32Keeps(W32(c, 64, 4096), 68, 1024);
    W32Keeps(W32(W32(c, 64, 4096), 68, 1024), 72, 1);
    W32Keeps(d, 76, 1023);
  }

  /** Apart from metadata, the journal superblock is all that was written. */
  ghost predicate RingHeadOnly(d: Disk, e: Disk) {
    RING_AT < |d| && OnlyMeta(Put(d, RING_AT, JournalSuper()), e)
  }

  lemma HeadWritten(d: Disk, e: Disk, f: Disk)
    requires OnlyMeta(d, e) && RING_AT < |e| && OnlyMeta(Put(e, RING_AT, JournalSuper()), f)
    ensures RingHeadOnly(d, f)
  {
    hide JournalSuper, IsMeta;
  }

  lemma ThenMeta(d: Disk, e: Disk, f: Disk)
    requires RingHeadOnly(d, e) && OnlyMeta(e, f)
    ensures RingHeadOnly(d, f)
  {
    hide JournalSuper, IsMeta, Put;
  }

  /** Phase 6 of mkfs_at: the journal's superblock in the first block, 1023 more blocks behind it.
      The 1024 blocks are consecutive, so one extent of 1024 blocks from `jblk` names them all. What
      the 1023 blocks of the ring hold stays. */
  method ReserveJournal(v: Device) returns (jblk: nat)
    requires v.Valid() && Accounting(v.d, v.geo) && FreshUse(v.d, v.geo, 0)
    requires RING_AT + RING_BLOCKS <= GroupBlocks(v.geo, 0)
    modifies v`d, v`log
    ensures v.Valid() && |v.d| == |old(v.d)| && Accounting(v.d, v.geo) && FreshUse(v.d, v.geo, RING_BLOCKS)
      && jblk == RING_AT
    ensures RingHeadOnly(old(v.d), v.d)
  {
    hide Accounting, FreshUse, Overwrite, BlocksOf, GroupBlocks, OnlyMeta, JournalSuper, Put, RingHeadOnly;
    ghost var d0 := v.d;
    jblk := AllocRing(v, 0);
    RingHeadKept(v.d, v.geo, JournalSuper());
    ghost var d1 := v.d;
    v.WriteBlock(jblk, JournalSuper());
    ghost var d2 := v.d;
    MetaRefl(d2);
    for k := 1 to RING_BLOCKS
      invariant v.Valid() && |v.d| == |d0| && Accounting(v.d, v.geo) && FreshUse(v.d, v.geo, k) && OnlyMeta(d2, v.d)
    {
      ghost var d := v.d;
      var blk := AllocRing(v, k);
      MetaTrans(d2, d, v.d);
    }
    HeadWritten(d0, d1, v.d);
  }

  /** The extent area mkfs and mkdir write for one run of `len` blocks. */
  function RunArea(start: nat, len: nat): (b: Area)
    requires start < U32_LIMIT && len < 0x8000
  {
    var head: Area := W16(W16(W16(Zeros(60), 0, EXTENT_MAGIC), 2, 1), 4, 4);
    W32(W16(W16(W32(head, 12, 0), 16, len), 18, start / 65536), 20, start)
  }

  /** The extent area recorded for inode 8. */
  function JournalArea(jblk: nat): (b: Area)
    requires jblk < U32_LIMIT
  {
    RunArea(jblk, 1024)
  }

  function Consecutive(first: nat, n: nat): (p: seq<nat>)
    ensures |p| == n && forall i :: 0 <= i < n ==> p[i] == first + i
  {
    if n == 0 then [] else Consecutive(first, n - 1) + [first + n - 1]
  }

  /** The one extent of inode 8 names exactly the reserved blocks. */
  lemma JournalExtent(jblk: nat)
    requires jblk + RING_BLOCKS <= BLOCK_LIMIT
    ensures Holds(JournalArea(jblk), Consecutive(jblk, RING_BLOCKS))
  {
    hide Holds, RunArea;
    OneRunHolds(jblk, 1024);
  }

  /** One extent names exactly its run of blocks. */
  lemma OneRunHolds(start: nat, len: nat)
    requires 1 <= len < 0x8000 && start + len <= BLOCK_LIMIT
    ensures Holds(RunArea(start, len), Consecutive(start, len))
  {
    var b, p, x := RunArea(start, len), Consecutive(start, len), Extent(0, len, start);
    OneRunEntry(start, len);
    hide RunArea, R16, EntryAt, RunsOf;
    assert Entries(b) == [x];
    assert RunOk([x], p, 0);
    RunsUnique([x], RunsOf(p), p);
  }

  lemma OneRunEntry(start: nat, len: nat)
    requires start < U32_LIMIT && len < 0x8000
    ensures var b := RunArea(start, len);
            HasMagic(b) && R16(b, 2) == 1 && R16(b, 6) == 0 && EntryAt(b, 0) == Extent(0, len, start)
  {
    hide StartOf;
    var head: Area := W16(W16(W16(Zeros(60), 0, EXTENT_MAGIC), 2, 1), 4, 4);
    var b1 := W32(head, 12, 0);
    var b2 := W16(b1, 16, len);
    var b3 := W16(b2, 18, start / 65536);
    var b4 := W32(b3, 20, start);
    StartReads(b3, start);
    assert R32(b4, 12) == R32(b1, 12) && R16(b4, 16) == R16(b2, 16);
  }

  lemma StartReads(b: Area, start: nat)
    requires start < U32_LIMIT && R16(b, 18) == start / 65536
    ensures StartOf(W32(b, 20, start), 12) == start
  {
    var r := W32(b, 20, start);
    assert r[18] == r[22] && r[19] == r[23] by {
      assert start / 65536 / 256 == start / 16777216;
    }
    OrSame(r[22]);
    OrSame(r[23]);
    assert StartOf(r, 12) == R32(r, 20);
  }
}
