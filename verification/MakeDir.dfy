/** New directories: the block and the inode of one, and the counter of directories of its group. */
module MakeDir {
  import opened Bytes
  import opened Collections
  import opened Wrappers
  import opened Disk
  import Bitmap
  import Extents
  import opened Volume
  import opened Inodes
  import opened InodeAlloc
  import opened Files
  import opened FileSystem
  import opened FreeSpace
  import opened FileWrite
  import opened Directory
  import opened DirectoryOps
  import opened DirCatalog
  import opened DirSteps
  import Mkfs

  const MODE_DIR: nat := 0x41ED
  const FT_DIR: Byte := 2

  // ---- the block ----

  /** The loop that writes records one behind the other, the last one up to the end of the block. */
  method PackEntries(es: seq<DirEnt>) returns (b: Block)
    requires Fits(es, 0) && es != []
    ensures b == Packed(ZERO_BLOCK, es, 0)
  {
    hide Packed, PutEntry, Align4;
    b := ZERO_BLOCK;
    var o := 0;
    WholeSuffix(es);
    for k := 0 to |es|
      invariant Fits(es[k..], o) && Packed(b, es[k..], o) == Packed(ZERO_BLOCK, es, 0)
    {
      var e := es[k];
      var need := Align4(8 + |e.name|);
      var last := k == |es| - 1;
      PackedStep(b, es[k..], o);
      assert es[k..][0] == e && es[k..][1..] == es[k + 1..];
      b := PutEntry(b, o, e, if last then 4096 - o else need);
      o := o + need;
    }
    PackedNothing(b, es[|es|..], o);
  }

  lemma WholeSuffix(es: seq<DirEnt>)
    ensures es[0..] == es
  {
  }

  lemma PackedNothing(b: Block, es: seq<DirEnt>, o: nat)
    requires es == []
    ensures Packed(b, es, o) == b
  {
  }

  lemma PackedStep(b: Block, es: seq<DirEnt>, o: nat)
    requires Fits(es, o) && es != []
    ensures |es[0].name| < 256 && o + 8 + |es[0].name| <= 4096 && 0 < es[0].target.ino < U32_LIMIT
    ensures var need := Align4(8 + |es[0].name|);
      && Fits(es[1..], o + need)
      && Packed(b, es, o) == Packed(PutEntry(b, o, es[0], if |es| == 1 then 4096 - o else need), es[1..], o + need)
  {
    hide PutEntry, Align4;
    if |es| == 1 {
      PackedNothing(PutEntry(b, o, es[0], 4096 - o), es[1..], o + Align4(8 + |es[0].name|));
    }
  }

  /** Such a block stands for its entries. */
  lemma PackedLive(es: seq<DirEnt>)
    requires Fits(es, 0) && es != []
    ensures BlockOk(Packed(ZERO_BLOCK, es, 0)) && Live(Packed(ZERO_BLOCK, es, 0)) == es
  {
    hide Packed, TiledFrom, LiveFrom;
    PackedReads(ZERO_BLOCK, es, 0);
  }

  const DOT: seq<Byte> := [0x2E]
  const DOT_DOT: seq<Byte> := [0x2E, 0x2E]

  function DotEntries(ino: nat, parent: nat): seq<DirEnt> {
    [DirEnt(DOT, Target(ino, FT_DIR)), DirEnt(DOT_DOT, Target(parent, FT_DIR))]
  }

  lemma DotsFit(ino: nat, parent: nat)
    requires 0 < ino < U32_LIMIT && 0 < parent < U32_LIMIT
    ensures Fits(DotEntries(ino, parent), 0) && DistinctNames(DotEntries(ino, parent))
  {
    var es := DotEntries(ino, parent);
    assert es[1..] == [es[1]] && es[1..][1..] == [];
    assert Align4(9) == 12 && Align4(10) == 12;
  }

  /** Such a directory leads to itself by one dot, to its parent by two, and nowhere else. */
  lemma DotsLead(ino: nat, parent: nat)
    ensures AsMap(DotEntries(ino, parent)) == map[DOT := Target(ino, FT_DIR), DOT_DOT := Target(parent, FT_DIR)]
  {
    var es := DotEntries(ino, parent);
    assert es[1..] == [es[1]] && es[1..][1..] == [];
    assert AsMap(es) == AsMap(es[1..])[DOT := Target(ino, FT_DIR)];
    assert AsMap(es[1..]) == AsMap([])[DOT_DOT := Target(parent, FT_DIR)];
  }

  // ---- the inode ----

  /** The record of a directory of one block. */
  function DirRaw(blk: nat, links: nat): (r: Extents.Raw)
    requires blk < U32_LIMIT && links < 0x1_0000
  {
    Splice(W32(W32(NewInode(MODE_DIR, links), 4, 4096), 28, 8), Extents.AREA_AT, Mkfs.RunArea(blk, 1))
  }

  lemma DirRawReads(blk: nat, links: nat)
    requires blk + 1 <= Extents.BLOCK_LIMIT && links < 0x1_0000
    ensures var r := DirRaw(blk, links);
      && R16(r, 128) <= 128 && Mode(r) / 0x4000 % 2 == 1 && Size(r) == 4096 && Extents.Holds(AreaOf(r), [blk])
      && R16(r, 26) == links && R32(r, 28) == 8
  {
    hide R16, R32, W16, W32, NewInode, Extents.Holds, Mkfs.RunArea;
    var a: Extents.Raw := NewInode(MODE_DIR, links);
    var b: Extents.Raw := W32(a, 4, 4096);
    var c: Extents.Raw := W32(b, 28, 8);
    NewInodeReads(MODE_DIR, links);
    NewInodeCounts(MODE_DIR, links);
    W32Keeps(a, 4, 4096);
    W32Keeps(b, 28, 8);
    SpliceKeeps(c, Mkfs.RunArea(blk, 1));
    Mkfs.OneRunHolds(blk, 1);
    assert Mkfs.Consecutive(blk, 1) == [blk];
  }

  lemma SpliceKeeps(raw: Extents.Raw, ib: Extents.Area)
    ensures var r: Extents.Raw := Splice(raw, Extents.AREA_AT, ib);
      && AreaOf(r) == ib && R16(r, 0) == R16(raw, 0) && R16(r, 128) == R16(raw, 128)
      && R32(r, 4) == R32(raw, 4) && R32(r, 108) == R32(raw, 108) && R16(r, 26) == R16(raw, 26)
      && R32(r, 28) == R32(raw, 28)
  {
  }

  // ---- a new directory on the volume ----

  /** From disk `d`, block `blk` was allocated and written. */
  lemma DirWritten(d: Disk, geo: Geometry, csum: bool, files: FileMap, ino: nat, blk: nat, b: Block)
    requires FsOk(d, geo, csum, files) && blk < geo.total <= |d| && !Used(d, blk) && Markable(d, blk)
    ensures var e := Put(Toggled(d, blk, true, csum), blk, b);
      && Mid(d, e, geo, files, ino) && OwnNew(geo, files, ino, [blk]) && UsedSet(e, geo) == UsedSet(d, geo) + {blk}
         && Accounting(e, geo)
      && blk < |e| && e[blk] == b && !IsMeta(blk)
  {
    hide *;
    var e := Put(Toggled(d, blk, true, csum), blk, b);
    FsParts(d, geo, csum, files);
    MidStart(d, geo, csum, files, ino);
    WriteOne(d, geo, blk, csum, b);
    MidWritten(d, d, e, geo, files, ino, [blk], b);
    NewIsOwn(d, e, geo, files, ino, [blk], b);
    WritingTook(d, e, geo, [blk], b);
    WritingFits(d, e, geo, [blk], b);
    JustThis(blk);
  }

  /** Once its inode is saved, the new directory is part of a sound file system. */
  lemma DirSaved(d: Disk, e: Disk, geo: Geometry, csum: bool, files: FileMap, ino: nat, blk: nat, raw: Extents.Raw)
    requires FsOk(d, geo, csum, files) && Mid(d, e, geo, files, ino) && OwnNew(geo, files, ino, [blk])
    requires UsedSet(e, geo) == UsedSet(d, geo) + {blk} && blk < |e| && !IsMeta(blk)
    requires IsIno(geo, ino) && ino < U32_LIMIT && InodeBlock(ino) < |e| && InoUsed(d, ino)
    requires R16(raw, 128) <= 128 && Mode(raw) / 0x4000 % 2 == 1 && Size(raw) == 4096
      && Extents.Holds(AreaOf(raw), [blk])
    ensures var f, after := Saved(e, ino, raw, csum), files[ino := [blk]];
      && FsOk(f, geo, csum, after) && OthersKept(d, f, geo, ino, Kept(files, ino)) && UsedSet(f, geo) == UsedSet(e, geo)
      && IsDirectory(f, ino, [blk]) && |f| == |e| && f[blk] == e[blk]
  {
    var f := Saved(e, ino, raw, csum);
    hide FsOk, Mid, OwnNew, UsedSet, IsMeta, IsIno, InodeBlock, InoUsed, R16, R32, Extents.Holds, AreaOf, Saved,
         Stamped, OthersKept, Kept, Mode, Size, InodeAt, Elems, DataList, Changed;
    MidFacts(d, e, geo, files, ino);
    MidSaved(d, e, geo, csum, files, ino, raw, [blk]);
    OwnParts(geo, files, ino, blk);
    MidDone(d, f, geo, csum, files, ino, [blk]);
    MidOthers(d, f, geo, files, ino);
    StampedIsOk(ino, raw, csum);
    SameArea(raw, Stamped(ino, raw, csum));
    NotThatBlock(e, f, ino, blk);
  }

  lemma OwnParts(geo: Geometry, files: FileMap, ino: nat, blk: nat)
    requires OwnNew(geo, files, ino, [blk])
    ensures Distinct([blk]) && Elems([blk]) == {blk} && DataList(geo, [blk]) && Kept(files, ino) !! Elems([blk])
  {
    hide Kept, DataList;
  }

  lemma NotThatBlock(e: Disk, f: Disk, ino: nat, blk: nat)
    requires ino >= 1 && Changed(e, f, {InodeBlock(ino)}) && IsMeta(InodeBlock(ino)) && !IsMeta(blk) && blk < |e|
    ensures |f| == |e| && f[blk] == e[blk]
  {
    hide InodeBlock, IsMeta, IsAcct;
    BeyondBoot(blk);
  }

  lemma NotInUse(d: Disk, geo: Geometry, blk: nat)
    requires !Used(d, blk)
    ensures blk !in UsedSet(d, geo)
  {
    hide Used;
  }

  /** What mkdir and mkfs do for one directory once its inode number is known. */
  method NewDirectory(v: Device, ino: nat, b: Block, links: nat, ghost files: FileMap) returns (r: Result<nat, FsErr>)
    requires v.Valid() && FsOk(v.d, v.geo, v.csum, files) && IsIno(v.geo, ino) && InoUsed(v.d, ino) && links < 0x1_0000
    modifies v`d, v`log
    ensures v.Valid() && Avoids(BlocksOf(old(v.log)), BlocksOf(v.log), Kept(files, ino))
    ensures UsedSet(v.d, v.geo) ==
            UsedSet(old(v.d), v.geo) + Elems(Head(FreeList(UsedSet(old(v.d), v.geo), v.geo.total)))
    ensures r.Ok? <==> FreeList(UsedSet(old(v.d), v.geo), v.geo.total) != []
    ensures r.Err? ==> r.error == NoSpace && v.d == old(v.d) && v.log == old(v.log)
    ensures r.Ok? ==>
              && FsOk(v.d, v.geo, v.csum, files[ino := [r.value]])
                 && OthersKept(old(v.d), v.d, v.geo, ino, Kept(files, ino))
              && IsDirectory(v.d, ino, [r.value]) && r.value < |v.d| && v.d[r.value] == b
              && Tallied(v.d, ino, links, [r.value])
              && r.value !in UsedSet(old(v.d), v.geo) && UsedSet(v.d, v.geo) == UsedSet(old(v.d), v.geo) + {r.value}
  {
    hide FsOk, Mid, OwnNew, UsedSet, IsMeta, IsIno, InodeBlock, InoUsed, R16, R32, Extents.Holds, AreaOf, Saved,
         OthersKept, Kept, Mode, Size, InodeAt, Elems, Accounting, Toggled, Markable, Put, Full, IsLowest, FreeList,
         Overwrite, BlocksOf, Avoids, IsDirectory, DirRaw, Used, MetaUsed, ValidGeo;
    ghost var d, log0 := v.d, BlocksOf(v.log);
    FsParts(d, v.geo, v.csum, files);
    AvoidsSame(log0, Kept(files, ino));
    NoElems();
    var next := v.AllocBlock();
    if next.Err? {
      FullIsEmpty(d, v.geo);
      return Err(NoSpace);
    }
    var blk := next.value;
    LowestIs(d, v.geo, blk);
    LowestIsHead(d, v.geo, blk);
    JustThis(blk);
    DirWritten(d, v.geo, v.csum, files, ino, blk, b);
    AvoidsGrow(d, v.geo, v.csum, files, ino, blk, log0);
    NotBoot(d, v.geo, blk);
    NotInUse(d, v.geo, blk);
    v.WriteBlock(blk, b);
    ghost var e := v.d;
    MidFacts(d, e, v.geo, files, ino);
    BlockFits(v.geo, blk);
    DirRawReads(blk, links);
    DirSaved(d, e, v.geo, v.csum, files, ino, blk, DirRaw(blk, links));
    SavedTally(e, ino, DirRaw(blk, links), v.csum);
    Save(v, ino, DirRaw(blk, links));
    return Ok(blk);
  }

  lemma BlockFits(geo: Geometry, blk: nat)
    requires ValidGeo(geo) && blk < geo.total
    ensures blk + 1 <= Extents.BLOCK_LIMIT
  {
  }

  // ---- the counter of directories ----

  function SetUsedDirs(ds: Desc, n: nat): (r: Desc)
    ensures n < U32_LIMIT ==> UsedDirsOf(r) == n
    ensures FreeOf(r) == FreeOf(ds) && FreeInodesOf(r) == FreeInodesOf(ds) && SamePointers(r, ds)
  {
    hide R16, R32, W16;
    var a: Desc := W16(ds, 16, n % 0x1_0000);
    W16Keeps(ds, 16, n % 0x1_0000);
    W16Keeps(a, 48, n / 0x1_0000 % 0x1_0000);
    W16(a, 48, n / 0x1_0000 % 0x1_0000)
  }

  function BumpedDesc(b: Block, g: nat, delta: int): (r: Desc)
    requires g < MAX_DESCS
    ensures FreeOf(r) == FreeOf(DescAt(b, g)) && FreeInodesOf(r) == FreeInodesOf(DescAt(b, g))
      && SamePointers(r, DescAt(b, g))
  {
    var n := UsedDirsOf(DescAt(b, g)) + delta;
    Sealed(g, SetUsedDirs(DescAt(b, g), if n < 0 then 0 else n))
  }

  /** The disk after bump_used_dirs. */
  function Bumped(d: Disk, g: nat, delta: int): (r: Disk)
    requires 1 < |d| && g < MAX_DESCS
    ensures |r| == |d|
  {
    Put(d, 1, Splice(d[1], DescOff(g), BumpedDesc(d[1], g, delta)))
  }

  /** No other field of any descriptor changes. */
  lemma BumpedAt(d: Disk, g: nat, delta: int, h: nat)
    requires 1 < |d| && g < MAX_DESCS && h < MAX_DESCS
    ensures var x, y := DescAt(Bumped(d, g, delta)[1], h), DescAt(d[1], h);
            FreeOf(x) == FreeOf(y) && FreeInodesOf(x) == FreeInodesOf(y) && SamePointers(x, y)
  {
    hide BumpedDesc, DescAt, FreeOf, FreeInodesOf, BitmapPtr, InodeMapPtr, InodeTablePtr, Splice;
    DescAtSplice(d[1], g, BumpedDesc(d[1], g, delta), h);
    PutAt(d, 1, Splice(d[1], DescOff(g), BumpedDesc(d[1], g, delta)), 1);
  }

  lemma BumpKeepsAccounting(d: Disk, geo: Geometry, g: nat, delta: int)
    requires Accounting(d, geo) && g < geo.groups && g < MAX_DESCS && 1 < |d|
    ensures Accounting(Bumped(d, g, delta), geo) && UsedSet(Bumped(d, g, delta), geo) == UsedSet(d, geo)
  {
    hide Bumped, BlockCounts, InodeCounts, Sums, Used;
    BumpKeepsBlocks(d, geo, g, delta);
    BumpKeepsInodes(d, geo, g, delta);
    BumpKeepsSums(d, geo, g, delta);
    forall x: nat
      ensures Used(Bumped(d, g, delta), x) <==> Used(d, x)
    {
      BumpUse(d, g, delta, x);
    }
  }

  lemma BumpKeepsSums(d: Disk, geo: Geometry, g: nat, delta: int)
    requires Sums(d, geo) && g < geo.groups && g < MAX_DESCS && 1 < |d|
    ensures Sums(Bumped(d, g, delta), geo)
  {
    hide Mounts, Bumped, DescAt, DescSumOk, MapSum, InodeMapSum, BitmapCsum, BumpedDesc, BitmapBlock, InodeMapBlock;
    var e := Bumped(d, g, delta);
    BumpFrame(d, g, delta);
    forall h: nat | h < geo.groups
      ensures SumsOk(e, h)
    {
      assert SumsOk(d, h);
      MapOrder(h);
      BumpedSums(d, g, delta, h);
    }
  }

  lemma BumpedSums(d: Disk, g: nat, delta: int, h: nat)
    requires 1 < |d| && g < MAX_DESCS && h < MAX_DESCS && DescSumOk(h, DescAt(d[1], h))
    ensures var x, y := DescAt(Bumped(d, g, delta)[1], h), DescAt(d[1], h); SameSums(x, y) && DescSumOk(h, x)
  {
    hide BumpedDesc, DescAt, MapSum, InodeMapSum, Splice, DescSumOk;
    DescAtSplice(d[1], g, BumpedDesc(d[1], g, delta), h);
    PutAt(d, 1, Splice(d[1], DescOff(g), BumpedDesc(d[1], g, delta)), 1);
    BumpedDescSums(d[1], g, delta);
  }

  lemma BumpedDescSums(b: Block, g: nat, delta: int)
    requires g < MAX_DESCS
    ensures SameSums(BumpedDesc(b, g, delta), DescAt(b, g)) && DescSumOk(g, BumpedDesc(b, g, delta))
  {
    hide DescAt, Sealed, SetUsedDirs, DescSumOk, MapSum, InodeMapSum;
    var n := UsedDirsOf(DescAt(b, g)) + delta;
    DirsKeepSums(DescAt(b, g), if n < 0 then 0 else n);
    SealedSums(g, SetUsedDirs(DescAt(b, g), if n < 0 then 0 else n));
  }

  lemma DirsKeepSums(ds: Desc, n: nat)
    ensures SameSums(SetUsedDirs(ds, n), ds)
  {
    hide R16, W16;
    var a: Desc := W16(ds, 16, n % 0x1_0000);
    W16Keeps(ds, 16, n % 0x1_0000);
    W16Keeps(a, 48, n / 0x1_0000 % 0x1_0000);
  }

  lemma BumpUse(d: Disk, g: nat, delta: int, x: nat)
    requires 1 < |d| && g < MAX_DESCS
    ensures Used(Bumped(d, g, delta), x) <==> Used(d, x)
  {
    BumpFrame(d, g, delta);
    hide Bumped, Bitmap.Bit, BitmapBlock, GroupOf, BitOf;
    BitmapsApart(GroupOf(x), 0);
  }

  lemma BumpKeepsInodes(d: Disk, geo: Geometry, g: nat, delta: int)
    requires InodeCounts(d, geo) && g < MAX_DESCS && 1 < |d|
    ensures InodeCounts(Bumped(d, g, delta), geo)
  {
    var e := Bumped(d, g, delta);
    BumpFrame(d, g, delta);
    hide Bumped, DescAt, FreeOf, FreeInodesOf, SamePointers, Bitmap.ZeroBits, InodeSum, SbInodes, InodeMapBlock;
    forall h: nat | h < geo.groups
      ensures SameInodeGroup(d, e, h)
    {
      assert InodesOk(d, h);
      BumpedAt(d, g, delta, h);
      MapsApart(h, h);
    }
    hide SameInodeGroup, InodesOk;
    InodeCountsKept(d, e, geo);
  }

  lemma BumpKeepsBlocks(d: Disk, geo: Geometry, g: nat, delta: int)
    requires BlockCounts(d, geo) && g < MAX_DESCS && 1 < |d|
    ensures BlockCounts(Bumped(d, g, delta), geo)
  {
    var e := Bumped(d, g, delta);
    BumpFrame(d, g, delta);
    hide Bumped, DescAt, FreeOf, FreeSum, SbFree, GroupOk;
    forall h: nat | h < geo.groups
      ensures GroupOk(e, geo, h) && h < MAX_DESCS && FreeOf(DescAt(e[1], h)) == FreeOf(DescAt(d[1], h))
    {
      BumpGroup(d, geo, g, delta, h);
    }
    SameFreeSum(d[1], e[1], geo.groups);
  }

  lemma BumpGroup(d: Disk, geo: Geometry, g: nat, delta: int, h: nat)
    requires 1 < |d| && g < MAX_DESCS && GroupOk(d, geo, h)
    ensures GroupOk(Bumped(d, g, delta), geo, h) && FreeOf(DescAt(Bumped(d, g, delta)[1], h)) == FreeOf(DescAt(d[1], h))
  {
    BumpFrame(d, g, delta);
    BumpedAt(d, g, delta, h);
    BitmapsApart(h, h);
    hide Bumped, DescAt, FreeOf, FreeInodesOf, BitmapPtr, InodeMapPtr, InodeTablePtr, Bitmap.ZeroBits, BitmapBlock,
         GroupBlocks, FirstBlock;
  }

  lemma BumpFrame(d: Disk, g: nat, delta: int)
    requires 1 < |d| && g < MAX_DESCS
    ensures forall x: nat :: x < |d| && x != 1 ==> Bumped(d, g, delta)[x] == d[x]
    ensures Changed(d, Bumped(d, g, delta), {})
  {
    hide BumpedDesc, Splice;
  }

  /** Nothing a file or a directory is made of changes. */
  lemma BumpedFs(d: Disk, geo: Geometry, csum: bool, files: FileMap, g: nat, delta: int)
    requires FsOk(d, geo, csum, files) && g < geo.groups && g < MAX_DESCS && 1 < |d|
    ensures var e := Bumped(d, g, delta);
      && FsOk(e, geo, csum, files) && UsedSet(e, geo) == UsedSet(d, geo) && OthersKept(d, e, geo, 0, Kept(files, 0))
         && 0 !in files
  {
    hide *;
    var e := Bumped(d, g, delta);
    FsParts(d, geo, csum, files);
    KeptFacts(d, geo, csum, files, 0);
    BumpKeepsAccounting(d, geo, g, delta);
    BumpFrame(d, g, delta);
    NoneIn(geo, Kept(files, 0));
    OthersWrites(d, e, geo, 0, Kept(files, 0), {});
    MetaStays(d, e, geo, {});
    NoInodeZero(d, geo, csum, files);
    FsWithout(d, e, geo, csum, files, 0);
    assert files - {0} == files;
  }

  lemma NoneIn(geo: Geometry, keep: set<nat>)
    ensures DataOnly(geo, {}) && keep !! {}
  {
  }

  lemma NoInodeZero(d: Disk, geo: Geometry, csum: bool, files: FileMap)
    requires FsOk(d, geo, csum, files)
    ensures 0 !in files
  {
    hide Accounting, MetaUsed, FileOk;
    assert forall j :: j in files ==> InoUsed(d, j);
  }

  lemma BumpPlace(d: Disk, geo: Geometry, csum: bool, files: FileMap, g: nat)
    requires FsOk(d, geo, csum, files) && g < geo.groups
    ensures g < MAX_DESCS && 1 < |d|
  {
    FsParts(d, geo, csum, files);
    hide FsOk, Accounting;
  }

  /** One group counts `delta` directories more. */
  function DirsMoved(dirs: seq<nat>, g: nat, delta: int): seq<nat> {
    if g < |dirs| then dirs[g := if dirs[g] + delta < 0 then 0 else (dirs[g] + delta) % U32_LIMIT] else dirs
  }

  lemma SetDirsReads(ds: Desc, n: nat)
    ensures UsedDirsOf(SetUsedDirs(ds, n)) == n % U32_LIMIT
  {
    hide R16, R32, W16;
    var a: Desc := W16(ds, 16, n % 0x1_0000);
    W16Keeps(ds, 16, n % 0x1_0000);
    W16Keeps(a, 48, n / 0x1_0000 % 0x1_0000);
    Halves(n);
  }

  lemma Halves(n: nat)
    ensures n % 0x1_0000 + 0x1_0000 * (n / 0x1_0000 % 0x1_0000) == n % U32_LIMIT
  {
  }

  lemma BumpedCounts(d: Disk, dirs: seq<nat>, g: nat, delta: int)
    requires 1 < |d| && g < MAX_DESCS && Counts(d[1], dirs)
    ensures Counts(Bumped(d, g, delta)[1], DirsMoved(dirs, g, delta)) && DirsMoved(dirs, g, delta) != []
  {
    hide Counts, Sealed, SetUsedDirs, Splice, UsedDirsOf, DescAt;
    var n := UsedDirsOf(DescAt(d[1], g)) + delta;
    CountAt(d[1], dirs, g);
    SameCounts(d[1], dirs);
    SetDirsReads(DescAt(d[1], g), if n < 0 then 0 else n);
    CountsThen(d[1], dirs, g, SetUsedDirs(DescAt(d[1], g), if n < 0 then 0 else n));
  }

  /** bump_used_dirs */
  method BumpUsedDirs(v: Device, g: nat, delta: int, ghost files: FileMap)
    requires v.Valid() && FsOk(v.d, v.geo, v.csum, files) && g < v.geo.groups
    modifies v`d, v`log, v`dirs
    ensures v.Valid() && g < MAX_DESCS && 1 < |old(v.d)| && v.d == Bumped(old(v.d), g, delta)
    ensures v.dirs == DirsMoved(old(v.dirs), g, delta)
    ensures FsOk(v.d, v.geo, v.csum, files) && UsedSet(v.d, v.geo) == UsedSet(old(v.d), v.geo)
    ensures OthersKept(old(v.d), v.d, v.geo, 0, Kept(files, 0)) && 0 !in files
    ensures BlocksOf(v.log) == BlocksOf(old(v.log)) + {1}
  {
    hide FsOk, Accounting, DescAt, UsedDirsOf, SetUsedDirs, Sealed, Splice, Put, Overwrite, BlocksOf, OthersKept,
         Kept, UsedSet, FreeOf, FreeInodesOf, SamePointers, Counts;
    BumpPlace(v.d, v.geo, v.csum, files, g);
    ghost var d, dirs := v.d, v.dirs;
    v.dirs := [];
    BumpedFs(v.d, v.geo, v.csum, files, g, delta);
    var ds := v.DescRead(g);
    var n := UsedDirsOf(ds) + delta;
    v.DescWrite(g, SetUsedDirs(ds, if n < 0 then 0 else n));
    if dirs != [] {
      BumpedCounts(d, dirs, g, delta);
    }
    v.dirs := DirsMoved(dirs, g, delta);
  }
}
