/** Inode allocation: alloc_inode and free_inode turn over one bit of an inode bitmap and keep the
    inode counters of the group and of the superblock right. */
module InodeAlloc {
  import opened Bytes
  import opened Wrappers
  import opened Disk
  import opened Bitmap
  import opened Volume
  import opened Inodes

  // ---- the superblock counter ----

  function SbInodesMoved(b: Block, delta: int, csum: bool): (r: Block) {
    var sb := b[SB_AT..SB_AT + 1024];
    var cur: nat := if SbInodes(b) + delta < 0 then 0 else SbInodes(b) + delta;
    Splice(b, SB_AT, SbSealed(W32(sb, 16, cur % U32_LIMIT), csum))
  }

  lemma SbInodesMovedReads(b: Block, delta: int, csum: bool)
    requires 0 <= SbInodes(b) + delta < U32_LIMIT
    ensures var r := SbInodesMoved(b, delta, csum); SbInodes(r) == SbInodes(b) + delta && SbFree(r) == SbFree(b)
  {
    hide SbSealed, R32, W32, Splice, SbInodes, SbFree;
    var sb := b[SB_AT..SB_AT + 1024];
    var cur: nat := SbInodes(b) + delta;
    W32Keeps(sb, 16, cur % U32_LIMIT);
    var sb1 := SbSealed(W32(sb, 16, cur % U32_LIMIT), csum);
    SbInodesSplice(b, sb1);
    SbSpliceReads(b, sb1);
    SbSpliceReads(b, sb);
    assert Splice(b, SB_AT, sb) == b;
  }

  lemma SbInodesMovedMounts(b: Block, delta: int, csum: bool, geo: Geometry)
    requires Mounts(b, geo) && csum == geo.csum
    ensures Mounts(SbInodesMoved(b, delta, csum), geo)
  {
    hide SbSealed, R16, R32, W32, Splice, SbInodes, Mounts;
    var sb := SbOf(b);
    var cur: nat := if SbInodes(b) + delta < 0 then 0 else SbInodes(b) + delta;
    W32Keeps(sb, 16, cur % U32_LIMIT);
    SealedMounts(b, W32(sb, 16, cur % U32_LIMIT), csum, geo);
  }

  lemma SbInodesMovedRest(b: Block, delta: int, csum: bool)
    ensures SameRest(b, SbInodesMoved(b, delta, csum))
  {
    hide SbSum, SbInodes, R32, SbSealed, Splice, SameRest;
    var cur: nat := if SbInodes(b) + delta < 0 then 0 else SbInodes(b) + delta;
    SealedRest(b, W32(SbOf(b), 16, cur % U32_LIMIT), csum);
  }

  // ---- one inode marked or unmarked ----

  /** The bitmaps of the inode's group are on the disk. */
  predicate Remarkable(d: Disk, ino: nat) {
    && ino >= 1 && InodeGroup(ino) < MAX_DESCS && 1 < |d| && InodeMapBlock(InodeGroup(ino)) < |d|
    && BitmapPtr(DescAt(d[1], InodeGroup(ino))) < |d|
  }

  function RemarkedMap(d: Disk, ino: nat, on: bool): Block
    requires Remarkable(d, ino)
  {
    PutBit(d[InodeMapBlock(InodeGroup(ino))], InodeIndex(ino), on)
  }

  function InodesMoved(ds: Desc, g: nat, bm: Block, im: Block, delta: int): (r: Desc)
    requires g < MAX_DESCS
  {
    var v: nat := if FreeInodesOf(ds) + delta < 0 then 0 else FreeInodesOf(ds) + delta;
    Sealed(g, SetFreeInodes(SetBitmapCsums(ds, bm, im), v))
  }

  lemma InodesMovedReads(ds: Desc, g: nat, bm: Block, im: Block, delta: int)
    requires g < MAX_DESCS
    ensures var r := InodesMoved(ds, g, bm, im, delta);
      && FreeOf(r) == FreeOf(ds) && SamePointers(r, ds)
      && (0 <= FreeInodesOf(ds) + delta < U32_LIMIT ==> FreeInodesOf(r) == FreeInodesOf(ds) + delta)
  {
    hide SetBitmapCsums, Sealed, SetFreeInodes, FreeOf, FreeInodesOf, BitmapPtr, InodeMapPtr, InodeTablePtr;
  }

  function RemarkedDesc(d: Disk, ino: nat, on: bool): Desc
    requires Remarkable(d, ino)
  {
    var ds := DescAt(d[1], InodeGroup(ino));
    InodesMoved(ds, InodeGroup(ino), d[BitmapPtr(ds)], RemarkedMap(d, ino, on), Delta(on))
  }

  function RemarkedDescs(d: Disk, ino: nat, on: bool): Block
    requires Remarkable(d, ino)
  {
    Splice(d[1], DescOff(InodeGroup(ino)), RemarkedDesc(d, ino, on))
  }

  /** The disk with the bit of `ino` set or cleared and the two counters moved to match. */
  function Remarked(d: Disk, ino: nat, on: bool, csum: bool): (r: Disk)
    requires Remarkable(d, ino)
    ensures |r| == |d|
  {
    hide RemarkedDescs, SbInodesMoved, RemarkedMap, InodeMapBlock, BitmapPtr, DescAt, InodeGroup;
    var i := InodeMapBlock(InodeGroup(ino));
    Put(Put(Put(d, i, RemarkedMap(d, ino, on)), 1, RemarkedDescs(d, ino, on)), 0, SbInodesMoved(d[0], Delta(on), csum))
  }

  lemma MapsApart(g: nat, h: nat)
    ensures InodeMapBlock(g) == InodeMapBlock(h) <==> g == h
    ensures 1 < InodeMapBlock(g) != BitmapBlock(h)
  {
  }

  lemma RemarkedAt(d: Disk, ino: nat, on: bool, csum: bool)
    requires Remarkable(d, ino)
    ensures var r := Remarked(d, ino, on, csum);
      && r[InodeMapBlock(InodeGroup(ino))] == RemarkedMap(d, ino, on)
      && r[1] == RemarkedDescs(d, ino, on) && r[0] == SbInodesMoved(d[0], Delta(on), csum)
  {
    MapsApart(InodeGroup(ino), 0);
    hide RemarkedDescs, SbInodesMoved, RemarkedMap, InodeMapBlock, BitmapPtr, DescAt, InodeGroup, Put;
    var i := InodeMapBlock(InodeGroup(ino));
    var d1 := Put(d, i, RemarkedMap(d, ino, on));
    var d2 := Put(d1, 1, RemarkedDescs(d, ino, on));
    var z := SbInodesMoved(d[0], Delta(on), csum);
    PutAt(d, i, RemarkedMap(d, ino, on), i);
    PutAt(d1, 1, RemarkedDescs(d, ino, on), i);
    PutAt(d1, 1, RemarkedDescs(d, ino, on), 1);
    PutAt(d2, 0, z, i);
    PutAt(d2, 0, z, 1);
    PutAt(d2, 0, z, 0);
  }

  /** Only blocks 0, 1 and the inode bitmap of the group change. */
  lemma RemarkFrame(d: Disk, ino: nat, on: bool, csum: bool, x: nat)
    requires Remarkable(d, ino) && 1 < x < |d| && x != InodeMapBlock(InodeGroup(ino))
    ensures Remarked(d, ino, on, csum)[x] == d[x]
  {
    hide RemarkedDescs, SbInodesMoved, RemarkedMap, InodeMapBlock, BitmapPtr, DescAt, InodeGroup, Put;
    var i := InodeMapBlock(InodeGroup(ino));
    var d1 := Put(d, i, RemarkedMap(d, ino, on));
    var d2 := Put(d1, 1, RemarkedDescs(d, ino, on));
    PutAt(d, i, RemarkedMap(d, ino, on), x);
    PutAt(d1, 1, RemarkedDescs(d, ino, on), x);
    PutAt(d2, 0, SbInodesMoved(d[0], Delta(on), csum), x);
  }

  /** Marking changes the bit of that inode and of no other. */
  lemma RemarkedMarks(d: Disk, ino: nat, on: bool, csum: bool, j: nat)
    requires Remarkable(d, ino) && j >= 1
    ensures Marked(Remarked(d, ino, on, csum), j) <==> if j == ino then on else Marked(d, j)
  {
    SameNumber(ino, j);
    hide PutBit, Remarked, DescAt, BitmapPtr, Bit, InodeMapBlock, InodeGroup, InodeIndex;
    var g, h := InodeGroup(ino), InodeGroup(j);
    RemarkedAt(d, ino, on, csum);
    MapsApart(g, h);
    MapsApart(h, g);
    if InodeMapBlock(h) < |d| {
      if h == g {
        PutBitAt(d[InodeMapBlock(g)], InodeIndex(ino), on, InodeIndex(j));
      } else {
        RemarkFrame(d, ino, on, csum, InodeMapBlock(h));
      }
    }
  }

  lemma SameNumber(i: nat, j: nat)
    requires i >= 1 && j >= 1
    ensures j == i <==> InodeGroup(j) == InodeGroup(i) && InodeIndex(j) == InodeIndex(i)
  {
  }

  /** No block is marked or unmarked. */
  lemma RemarkedUse(d: Disk, ino: nat, on: bool, csum: bool, x: nat)
    requires Remarkable(d, ino)
    ensures Used(Remarked(d, ino, on, csum), x) <==> Used(d, x)
  {
    hide Remarked, DescAt, BitmapPtr, Bit, InodeMapBlock, InodeGroup, BitOf, GroupOf;
    MapsApart(InodeGroup(ino), GroupOf(x));
    BitmapsApart(GroupOf(x), 0);
    if BitmapBlock(GroupOf(x)) < |d| {
      RemarkFrame(d, ino, on, csum, BitmapBlock(GroupOf(x)));
    }
  }

  // ---- accounting ----

  lemma CanRemark(d: Disk, geo: Geometry, ino: nat)
    requires Accounting(d, geo) && IsIno(geo, ino)
    ensures Remarkable(d, ino)
    ensures InodeMapPtr(DescAt(d[1], InodeGroup(ino))) == InodeMapBlock(InodeGroup(ino))
    ensures BitmapPtr(DescAt(d[1], InodeGroup(ino))) == BitmapBlock(InodeGroup(ino))
  {
    hide Sums, BitmapPtr, InodeMapPtr, InodeTablePtr, DescAt, FreeOf, FreeInodesOf, ZeroBits;
    assert GroupOk(d, geo, InodeGroup(ino)) && InodesOk(d, InodeGroup(ino));
  }

  /** Marking a free inode or freeing a marked one keeps all counters right. */
  lemma RemarkKeepsAccounting(d: Disk, geo: Geometry, ino: nat, on: bool, csum: bool)
    requires Accounting(d, geo) && IsIno(geo, ino) && Remarkable(d, ino) && Marked(d, ino) != on && csum == geo.csum
    ensures Accounting(Remarked(d, ino, on, csum), geo)
  {
    hide Remarked, Remarkable, Marked, BlockCounts, InodeCounts, Sums;
    RemarkKeepsBlocks(d, geo, ino, on, csum);
    RemarkKeepsInodes(d, geo, ino, on, csum);
    RemarkKeepsSums(d, geo, ino, on, csum);
  }

  lemma RemarkKeepsSums(d: Disk, geo: Geometry, ino: nat, on: bool, csum: bool)
    requires Accounting(d, geo) && IsIno(geo, ino) && Remarkable(d, ino) && csum == geo.csum
    ensures Sums(Remarked(d, ino, on, csum), geo)
  {
    hide BlockCounts, InodeCounts, Remarked, Remarkable, SumsOk, Mounts, SbInodesMoved, RemarkedDescs, RemarkedMap,
         IsIno, InodeGroup, InodeMapBlock;
    RemarkedAt(d, ino, on, csum);
    SbInodesMovedMounts(d[0], Delta(on), csum, geo);
    forall h: nat | h < geo.groups
      ensures SumsOk(Remarked(d, ino, on, csum), h)
    {
      RemarkSum(d, geo, ino, on, csum, h);
    }
  }

  lemma RemarkSum(d: Disk, geo: Geometry, ino: nat, on: bool, csum: bool, h: nat)
    requires Accounting(d, geo) && IsIno(geo, ino) && Remarkable(d, ino) && h < geo.groups
    ensures SumsOk(Remarked(d, ino, on, csum), h)
  {
    assert ino >= 1;
    hide Accounting, Remarked, DescAt, BitmapPtr, InodeMapPtr, InodeGroup, RemarkedDesc, RemarkedMap, SbInodesMoved,
         SumsOk, RemarkedDescs, InodeMapBlock, DescSumOk, MapSum, InodeMapSum, BitmapCsum, Remarkable, IsIno;
    var g, r := InodeGroup(ino), Remarked(d, ino, on, csum);
    CanRemark(d, geo, ino);
    SumsAt(d, geo, h);
    SumsPlaces(d, h);
    MapsElsewhere(h, g);
    MapsApart(g, h);
    RemarkFrame(d, ino, on, csum, BitmapBlock(h));
    RemarkedDescAt(d, ino, on, csum, h);
    if h == g {
      RemarkedAt(d, ino, on, csum);
      RemarkedSums(d, ino, on);
      SumsAre(r, h);
    } else {
      RemarkFrame(d, ino, on, csum, InodeMapBlock(h));
      SumsSame(d, r, h);
    }
  }

  lemma RemarkedDescAt(d: Disk, ino: nat, on: bool, csum: bool, h: nat)
    requires Remarkable(d, ino) && h < MAX_DESCS
    ensures DescAt(Remarked(d, ino, on, csum)[1], h) ==
            if h == InodeGroup(ino) then RemarkedDesc(d, ino, on) else DescAt(d[1], h)
  {
    hide Remarked, DescAt, BitmapPtr, InodeGroup, RemarkedDesc, RemarkedMap, SbInodesMoved, Splice, InodeMapBlock;
    RemarkedAt(d, ino, on, csum);
    DescAtSplice(d[1], InodeGroup(ino), RemarkedDesc(d, ino, on), h);
  }

  lemma RemarkedSums(d: Disk, ino: nat, on: bool)
    requires Remarkable(d, ino)
    ensures var g := InodeGroup(ino);
      var im, ds := RemarkedMap(d, ino, on), RemarkedDesc(d, ino, on);
      && DescSumOk(g, ds) && InodeMapSum(ds) == BitmapCsum(im)
      && MapSum(ds) == BitmapCsum(d[BitmapPtr(DescAt(d[1], g))])
  {
    hide DescAt, BitmapPtr, InodeGroup, InodesMoved, RemarkedMap, DescSumOk, MapSum, InodeMapSum, BitmapCsum,
         InodeMapBlock;
    var ds := DescAt(d[1], InodeGroup(ino));
    InodesMovedSums(ds, InodeGroup(ino), d[BitmapPtr(ds)], RemarkedMap(d, ino, on), Delta(on));
  }

  lemma InodesMovedSums(ds: Desc, g: nat, bm: Block, im: Block, delta: int)
    requires g < MAX_DESCS
    ensures var r := InodesMoved(ds, g, bm, im, delta);
      DescSumOk(g, r) && MapSum(r) == BitmapCsum(bm) && InodeMapSum(r) == BitmapCsum(im)
  {
    hide SetBitmapCsums, Sealed, SetFreeInodes, FreeInodesOf, DescSumOk, MapSum, InodeMapSum, BitmapCsum;
    var a := SetBitmapCsums(ds, bm, im);
    var v: nat := if FreeInodesOf(ds) + delta < 0 then 0 else FreeInodesOf(ds) + delta;
    SetSums(ds, bm, im);
    CountersKeepSums(a, v);
    SealedSums(g, SetFreeInodes(a, v));
  }

  lemma {:induction false} InodeSumSplice(b: Block, g: nat, ds: Desc, n: nat)
    requires g < MAX_DESCS && n <= MAX_DESCS
    ensures InodeSum(Splice(b, DescOff(g), ds), n)
         == InodeSum(b, n) + if g < n then FreeInodesOf(ds) - FreeInodesOf(DescAt(b, g)) else 0
  {
    hide FreeInodesOf, DescAt, Splice;
    if n > 0 {
      InodeSumSplice(b, g, ds, n - 1);
      DescAtSplice(b, g, ds, n - 1);
    }
  }

  lemma {:induction false} InodeSumBound(d: Disk, geo: Geometry, n: nat)
    requires InodeCounts(d, geo) && n <= geo.groups
    ensures InodeSum(d[1], n) <= 8192 * n
  {
    hide FreeInodesOf, DescAt, InodeMapBlock, ZeroBits;
    if n > 0 {
      InodeSumBound(d, geo, n - 1);
      assert InodesOk(d, n - 1);
    }
  }

  /** The group's new counter is the number of clear bits of its new bitmap. */
  lemma RemarkedCount(d: Disk, geo: Geometry, ino: nat, on: bool)
    requires Accounting(d, geo) && IsIno(geo, ino) && Remarkable(d, ino) && Marked(d, ino) != on
    ensures FreeInodesOf(RemarkedDesc(d, ino, on)) == ZeroBits(RemarkedMap(d, ino, on), IPG)
         == FreeInodesOf(DescAt(d[1], InodeGroup(ino))) + Delta(on)
    ensures FreeOf(RemarkedDesc(d, ino, on)) == FreeOf(DescAt(d[1], InodeGroup(ino)))
    ensures SamePointers(RemarkedDesc(d, ino, on), DescAt(d[1], InodeGroup(ino)))
  {
    hide Sums, PutBit, Bit, InodesMoved, FreeOf, FreeInodesOf, DescAt, BitmapPtr, InodeMapPtr, InodeTablePtr, ZeroBits,
         InodeMapBlock, InodeSum, BlockCounts, SbInodes, InodeGroup;
    var g := InodeGroup(ino);
    var ds, im := DescAt(d[1], g), RemarkedMap(d, ino, on);
    assert InodesOk(d, g);
    InodesMovedReads(ds, g, d[BitmapPtr(ds)], im, Delta(on));
    ZeroBitsPut(d[InodeMapBlock(g)], InodeIndex(ino), on, IPG);
  }

  lemma RemarkKeepsInodes(d: Disk, geo: Geometry, ino: nat, on: bool, csum: bool)
    requires Accounting(d, geo) && IsIno(geo, ino) && Remarkable(d, ino) && Marked(d, ino) != on
    ensures InodeCounts(Remarked(d, ino, on, csum), geo)
  {
    hide Sums, BlockCounts, Remarked, InodeSum, SbInodes, Remarkable, Marked, IsIno, ValidGeo, InodesOk;
    RemarkedSuper(d, geo, ino, on, csum);
    forall h: nat | h < geo.groups
      ensures InodesOk(Remarked(d, ino, on, csum), h)
    {
      RemarkedGroup(d, geo, ino, on, csum, h);
    }
    RemarkedSum(d, geo, ino, on, csum);
  }

  lemma RemarkedSuper(d: Disk, geo: Geometry, ino: nat, on: bool, csum: bool)
    requires Accounting(d, geo) && IsIno(geo, ino) && Remarkable(d, ino) && Marked(d, ino) != on
    ensures SbInodes(Remarked(d, ino, on, csum)[0]) == SbInodes(d[0]) + Delta(on)
    ensures SbFree(Remarked(d, ino, on, csum)[0]) == SbFree(d[0])
  {
    SuperRoom(d, geo, ino, on);
    RemarkedAt(d, ino, on, csum);
    SbInodesMovedReads(d[0], Delta(on), csum);
  }

  lemma RemarkedSum(d: Disk, geo: Geometry, ino: nat, on: bool, csum: bool)
    requires Accounting(d, geo) && IsIno(geo, ino) && Remarkable(d, ino) && Marked(d, ino) != on
    ensures InodeSum(Remarked(d, ino, on, csum)[1], geo.groups) == InodeSum(d[1], geo.groups) + Delta(on)
  {
    RemarkedCount(d, geo, ino, on);
    RemarkedAt(d, ino, on, csum);
    hide Accounting, RemarkedDesc, RemarkedMap, Remarked, DescAt, FreeInodesOf, FreeOf, ZeroBits, Marked, InodeSum,
         Splice, InodeGroup;
    InodeSumSplice(d[1], InodeGroup(ino), RemarkedDesc(d, ino, on), geo.groups);
  }

  lemma RemarkedGroup(d: Disk, geo: Geometry, ino: nat, on: bool, csum: bool, h: nat)
    requires Accounting(d, geo) && IsIno(geo, ino) && Remarkable(d, ino) && Marked(d, ino) != on && h < geo.groups
    ensures InodesOk(Remarked(d, ino, on, csum), h)
  {
    RemarkedCount(d, geo, ino, on);
    RemarkedAt(d, ino, on, csum);
    assert InodesOk(d, h);
    var g := InodeGroup(ino);
    hide Accounting, RemarkedDesc, RemarkedMap, SbInodesMoved, Remarked, DescAt, FreeInodesOf, FreeOf, ZeroBits,
         InodeMapBlock, Marked, Splice, InodeGroup, SamePointers;
    DescAtSplice(d[1], g, RemarkedDesc(d, ino, on), h);
    MapsApart(g, h);
    MapsApart(h, g);
    if h != g {
      RemarkFrame(d, ino, on, csum, InodeMapBlock(h));
    }
  }

  lemma {:induction false} SumAbove(b: Block, g: nat, n: nat)
    requires g < n <= MAX_DESCS
    ensures FreeInodesOf(DescAt(b, g)) <= InodeSum(b, n)
  {
    hide FreeInodesOf, DescAt;
    if g < n - 1 {
      SumAbove(b, g, n - 1);
    }
  }

  lemma {:induction false} SameFreeSum(b: Block, c: Block, n: nat)
    requires n <= MAX_DESCS && forall h: nat :: h < n ==> FreeOf(DescAt(c, h)) == FreeOf(DescAt(b, h))
    ensures FreeSum(c, n) == FreeSum(b, n)
  {
    hide FreeOf, DescAt;
    if n > 0 {
      SameFreeSum(b, c, n - 1);
    }
  }

  lemma RemarkKeepsGroup(d: Disk, geo: Geometry, ino: nat, on: bool, csum: bool, h: nat)
    requires Accounting(d, geo) && IsIno(geo, ino) && Remarkable(d, ino) && Marked(d, ino) != on && h < geo.groups
    ensures var r := Remarked(d, ino, on, csum);
            GroupOk(r, geo, h) && FreeOf(DescAt(r[1], h)) == FreeOf(DescAt(d[1], h))
  {
    RemarkedCount(d, geo, ino, on);
    RemarkedAt(d, ino, on, csum);
    assert GroupOk(d, geo, h);
    hide Accounting, RemarkedDesc, RemarkedMap, SbInodesMoved, Remarked, DescAt, BitmapPtr, InodeMapPtr, InodeTablePtr,
         FreeInodesOf, FreeOf, ZeroBits, InodeMapBlock, Marked, Splice, InodeGroup, GroupBlocks, BitmapBlock,
         FirstBlock, ValidGeo, IsIno, Remarkable;
    var g := InodeGroup(ino);
    DescAtSplice(d[1], g, RemarkedDesc(d, ino, on), h);
    MapsApart(g, h);
    BitmapsApart(h, 0);
    RemarkFrame(d, ino, on, csum, BitmapBlock(h));
  }

  lemma RemarkKeepsBlocks(d: Disk, geo: Geometry, ino: nat, on: bool, csum: bool)
    requires Accounting(d, geo) && IsIno(geo, ino) && Remarkable(d, ino) && Marked(d, ino) != on
    ensures BlockCounts(Remarked(d, ino, on, csum), geo)
  {
    hide GroupOk, DescAt, FreeOf, Remarked, IsIno, Marked, InodeCounts, FreeSum, SbInodes, SbFree,
         InodeGroup, InodeMapBlock, BitmapPtr;
    var r := Remarked(d, ino, on, csum);
    forall h: nat | h < geo.groups
      ensures GroupOk(r, geo, h) && FreeOf(DescAt(r[1], h)) == FreeOf(DescAt(d[1], h))
    {
      RemarkKeepsGroup(d, geo, ino, on, csum, h);
    }
    SameFreeSum(d[1], r[1], geo.groups);
    RemarkedSuper(d, geo, ino, on, csum);
  }

  /** The superblock counter has room for the step. */
  lemma SuperRoom(d: Disk, geo: Geometry, ino: nat, on: bool)
    requires Accounting(d, geo) && IsIno(geo, ino) && Remarkable(d, ino) && Marked(d, ino) != on
    ensures 0 <= SbInodes(d[0]) + Delta(on) < U32_LIMIT
  {
    RemarkedCount(d, geo, ino, on);
    InodeSumBound(d, geo, geo.groups);
    hide Sums, BlockCounts, RemarkedDesc, RemarkedMap, FreeOf, FreeInodesOf, DescAt, ZeroBits, InodeSum, SbInodes,
         Marked, Remarkable, InodeGroup;
    SumAbove(d[1], InodeGroup(ino), geo.groups);
  }

  // ---- alloc_inode ----

  /** The inode with bit `bit` of group `g`. */
  function InoOf(g: nat, bit: nat): (ino: nat)
    ensures ino >= 1
  {
    8192 * g + bit + 1
  }

  lemma InoParts(g: nat, bit: nat)
    requires bit < IPG
    ensures InodeGroup(InoOf(g, bit)) == g && InodeIndex(InoOf(g, bit)) == bit
  {
  }

  /** The lowest inode number that is free. */
  ghost predicate IsLowestInode(d: Disk, geo: Geometry, ino: nat) {
    IsIno(geo, ino) && !Marked(d, ino) && forall j: nat :: 1 <= j < ino ==> Marked(d, j)
  }

  ghost predicate NoInodeLeft(d: Disk, geo: Geometry) {
    forall j: nat :: IsIno(geo, j) ==> Marked(d, j)
  }

  /** Every inode of the first `g` groups is in use. */
  ghost predicate MarkedBelow(d: Disk, g: nat) {
    forall j: nat :: j >= 1 && InodeGroup(j) < g ==> Marked(d, j)
  }

  lemma MarkedIs(d: Disk, g: nat, bit: nat)
    requires InodeMapBlock(g) < |d| && bit < IPG
    ensures Marked(d, InoOf(g, bit)) <==> Bit(d[InodeMapBlock(g)], bit)
  {
    hide Bit, InodeMapBlock;
    InoParts(g, bit);
  }

  lemma LowestInode(d: Disk, geo: Geometry, g: nat, bit: nat)
    requires g < geo.groups && InodeMapBlock(g) < |d| && bit < IPG && MarkedBelow(d, g)
      && ClearAt(d[InodeMapBlock(g)], IPG, bit)
    ensures IsLowestInode(d, geo, InoOf(g, bit))
  {
    hide Marked, Bit, InodeMapBlock;
    InoParts(g, bit);
    MarkedIs(d, g, bit);
    forall j: nat | 1 <= j < InoOf(g, bit)
      ensures Marked(d, j)
    {
      if InodeGroup(j) == g {
        assert j == InoOf(g, InodeIndex(j));
        MarkedIs(d, g, InodeIndex(j));
      }
    }
  }

  lemma GroupTaken(d: Disk, g: nat)
    requires InodeMapBlock(g) < |d| && MarkedBelow(d, g) && ClearAt(d[InodeMapBlock(g)], IPG, IPG)
    ensures MarkedBelow(d, g + 1)
  {
    hide Marked, Bit, InodeMapBlock;
    forall j: nat | j >= 1 && InodeGroup(j) < g + 1
      ensures Marked(d, j)
    {
      if InodeGroup(j) == g {
        assert j == InoOf(g, InodeIndex(j));
        MarkedIs(d, g, InodeIndex(j));
      }
    }
  }

  lemma NoneBelow(d: Disk)
    ensures MarkedBelow(d, 0)
  {
  }

  lemma AllTaken(d: Disk, geo: Geometry)
    requires MarkedBelow(d, geo.groups)
    ensures NoInodeLeft(d, geo)
  {
    hide Marked, InodeGroup;
  }

  /** Where the bitmaps of a group are. */
  lemma MapLayout(d: Disk, geo: Geometry, g: nat)
    requires Accounting(d, geo) && g < geo.groups
    ensures g < MAX_DESCS && 1 < InodeMapBlock(g) < |d| && BitmapBlock(g) < |d|
    ensures InodeMapPtr(DescAt(d[1], g)) == InodeMapBlock(g) && BitmapPtr(DescAt(d[1], g)) == BitmapBlock(g)
  {
    hide Sums, BitmapPtr, InodeMapPtr, DescAt, FreeOf, FreeInodesOf, ZeroBits;
    assert GroupOk(d, geo, g) && InodesOk(d, g);
  }

  /** The two loops of alloc_inode: the first group with a clear bit, and that bit. */
  method FindInode(v: Device) returns (found: bool, g: nat, bit: nat)
    requires Accounting(v.d, v.geo)
    ensures found ==> g < v.geo.groups && bit < IPG && IsLowestInode(v.d, v.geo, InoOf(g, bit))
    ensures !found ==> NoInodeLeft(v.d, v.geo)
  {
    assert 1 < |v.d|;
    hide Accounting, DescAt, BitmapPtr, InodeMapPtr, InodeMapBlock, BitmapBlock, MarkedBelow, IsLowestInode,
         NoInodeLeft, ClearAt, InoOf;
    NoneBelow(v.d);
    g, bit := 0, 0;
    while g < v.geo.groups
      invariant g <= v.geo.groups && MarkedBelow(v.d, g)
    {
      MapLayout(v.d, v.geo, g);
      var ds := v.DescRead(g);
      var inodes := v.ReadBlock(InodeMapPtr(ds));
      bit := v.FirstClear(inodes, IPG);
      if bit < IPG {
        LowestInode(v.d, v.geo, g, bit);
        return true, g, bit;
      }
      GroupTaken(v.d, g);
      g := g + 1;
    }
    AllTaken(v.d, v.geo);
    return false, 0, 0;
  }

  /** sb_update of alloc_inode and free_inode. */
  method UpdateSbInodes(v: Device, delta: int)
    requires v.Valid() && 0 < |v.d|
    modifies v`d, v`log
    ensures v.Valid() && v.d == Put(old(v.d), 0, SbInodesMoved(old(v.d)[0], delta, v.csum))
    ensures BlocksOf(v.log) == BlocksOf(old(v.log)) + {0}
  {
    hide SbInodesMoved, Put, Overwrite, SameRest, HeaderKept, Counts;
    var b := v.ReadBlock(0);
    SbInodesMovedRest(b, delta, v.csum);
    v.WriteBlock(0, SbInodesMoved(b, delta, v.csum));
  }

  lemma RemarkedIs(d: Disk, ino: nat, on: bool, csum: bool, im: Block, ds1: Desc, cur: nat)
    requires Remarkable(d, ino) && im == PutBit(d[InodeMapBlock(InodeGroup(ino))], InodeIndex(ino), on)
    requires var g, ds := InodeGroup(ino), DescAt(d[1], InodeGroup(ino));
      && ds1 == SetBitmapCsums(ds, d[BitmapPtr(ds)], im)
      && cur == if FreeInodesOf(ds1) + Delta(on) < 0 then 0 else FreeInodesOf(ds1) + Delta(on)
    ensures var g := InodeGroup(ino);
      Remarked(d, ino, on, csum) ==
        Put(Put(Put(d, InodeMapBlock(g), im), 1, Splice(d[1], DescOff(g), Sealed(g, SetFreeInodes(ds1, cur)))), 0,
            SbInodesMoved(d[0], Delta(on), csum))
  {
    hide Put, Splice, PutBit, SetBitmapCsums, Sealed, SetFreeInodes, SbInodesMoved, DescAt, BitmapPtr, FreeInodesOf,
         InodeMapBlock, InodeGroup, InodeIndex;
  }

  /** The writes both operations share: bitmap, descriptor, superblock. */
  method Remark(v: Device, ino: nat, g: nat, bit: nat, on: bool, ds: Desc, inodes: Block)
    requires v.Valid() && Accounting(v.d, v.geo) && IsIno(v.geo, ino) && g == InodeGroup(ino) && bit == InodeIndex(ino)
    requires Remarkable(v.d, ino) && ds == DescAt(v.d[1], g) && inodes == v.d[InodeMapBlock(g)]
      && Marked(v.d, ino) != on
    modifies v`d, v`log
    ensures v.Valid() && v.d == Remarked(old(v.d), ino, on, v.csum)
    ensures BlocksOf(v.log) == BlocksOf(old(v.log)) + {InodeMapBlock(g), 1, 0}
  {
    hide Accounting, DescAt, PutBit, BitmapPtr, InodeMapPtr, SetBitmapCsums, Sealed, SetFreeInodes, FreeInodesOf,
         Splice, SbInodesMoved, BlocksOf, Put, Overwrite, InodeMapBlock, BitmapBlock, Marked, InodeGroup, InodeIndex,
         IsIno, Bit, Remarked, Counts, UsedDirsOf;
    ghost var d0 := v.d;
    CanRemark(d0, v.geo, ino);
    if v.dirs != [] {
      CountAt(d0[1], v.dirs, g);
    }
    MapsApart(g, g);
    var im: Block := PutBit(inodes, bit, on);
    v.WriteBlock(InodeMapPtr(ds), im);
    PutAt(d0, InodeMapBlock(g), im, BitmapPtr(ds));
    PutAt(d0, InodeMapBlock(g), im, 1);
    PutAt(d0, InodeMapBlock(g), im, 0);
    var bmap := v.ReadBlock(BitmapPtr(ds));
    var ds1 := SetBitmapCsums(ds, bmap, im);
    var cur: nat := if FreeInodesOf(ds1) + Delta(on) < 0 then 0 else FreeInodesOf(ds1) + Delta(on);
    ghost var d1 := v.d;
    RemarkedIs(d0, ino, on, v.csum, im, ds1, cur);
    v.DescWrite(g, SetFreeInodes(ds1, cur));
    PutAt(d1, 1, Splice(d1[1], DescOff(g), Sealed(g, SetFreeInodes(ds1, cur))), 0);
    UpdateSbInodes(v, Delta(on));
  }

  /** alloc_inode: the lowest free inode is marked and both counters follow, or there is none. */
  method AllocInode(v: Device) returns (r: Result<nat, FsErr>)
    requires v.Valid() && Accounting(v.d, v.geo)
    modifies v`d, v`log
    ensures v.Valid() && Accounting(v.d, v.geo)
    ensures r.Err? ==> r.error == NoSpace && v.d == old(v.d) && v.log == old(v.log) && NoInodeLeft(v.d, v.geo)
    ensures r.Ok? ==>
              && IsLowestInode(old(v.d), v.geo, r.value) && Remarkable(old(v.d), r.value)
              && v.d == Remarked(old(v.d), r.value, true, v.csum)
              && BlocksOf(v.log) == BlocksOf(old(v.log)) + {InodeMapBlock(InodeGroup(r.value)), 1, 0}
  {
    hide Accounting, DescAt, BitmapPtr, InodeMapPtr, InodeMapBlock, BitmapBlock, NoInodeLeft, Remarked, Remarkable,
         Marked, Overwrite, BlocksOf, IsIno;
    var found, g, bit := FindInode(v);
    if !found {
      return Err(NoSpace);
    }
    var ino := InoOf(g, bit);
    InoParts(g, bit);
    MapLayout(v.d, v.geo, g);
    CanRemark(v.d, v.geo, ino);
    RemarkKeepsAccounting(v.d, v.geo, ino, true, v.csum);
    var ds := v.DescRead(g);
    var inodes := v.ReadBlock(InodeMapPtr(ds));
    Remark(v, ino, g, bit, true, ds, inodes);
    return Ok(ino);
  }

  /** free_inode of an inode in use. */
  method FreeInode(v: Device, ino: nat)
    requires v.Valid() && Accounting(v.d, v.geo) && IsIno(v.geo, ino) && Marked(v.d, ino)
    modifies v`d, v`log
    ensures v.Valid() && Accounting(v.d, v.geo)
    ensures Remarkable(old(v.d), ino) && v.d == Remarked(old(v.d), ino, false, v.csum)
    ensures BlocksOf(v.log) == BlocksOf(old(v.log)) + {InodeMapBlock(InodeGroup(ino)), 1, 0}
  {
    hide Accounting, DescAt, BitmapPtr, InodeMapPtr, InodeMapBlock, BitmapBlock, Remarked, Remarkable, Marked,
         Overwrite, BlocksOf;
    var g, bit := InodeGroup(ino), InodeIndex(ino);
    MapLayout(v.d, v.geo, g);
    CanRemark(v.d, v.geo, ino);
    RemarkKeepsAccounting(v.d, v.geo, ino, false, v.csum);
    var ds := v.DescRead(g);
    var inodes := v.ReadBlock(InodeMapPtr(ds));
    Remark(v, ino, g, bit, false, ds, inodes);
  }
}
