/** mkfs_at up to the journal: the volume it leaves is a sound file system whose only file is the journal. */
module Format {
  import opened Bytes
  import opened Collections
  import opened Wrappers
  import opened Disk
  import opened Bitmap
  import opened Extents
  import opened Volume
  import opened Inodes
  import opened Files
  import opened FileSystem
  import opened FileWrite
  import opened Mkfs

  const JOURNAL_INO: nat := 8
  const ROOT_INO: nat := 2
  const MODE_JOURNAL: nat := 0x8180

  /** The record of the journal inode. */
  function JournalRaw(jblk: nat): (r: Raw)
    requires jblk < U32_LIMIT
  {
    Splice(W32(W32(NewInode(MODE_JOURNAL, 1), 4, 4_194_304), 28, 8192), AREA_AT, JournalArea(jblk))
  }

  lemma JournalRawReads(jblk: nat)
    requires jblk < U32_LIMIT
    ensures var r := JournalRaw(jblk);
      && R16(r, 128) == EXTRA_ISIZE && AreaOf(r) == JournalArea(jblk) && Mode(r) == MODE_JOURNAL
      && R16(r, 26) == 1 && R32(r, 28) == 8 * RING_BLOCKS && Size(r) == 4096 * RING_BLOCKS
  {
    hide R16, R32, W32, JournalArea, NewInode;
    var a: Raw := NewInode(MODE_JOURNAL, 1);
    var b: Raw := W32(a, 4, 4_194_304);
    NewInodeReads(MODE_JOURNAL, 1);
    NewInodeCounts(MODE_JOURNAL, 1);
    W32Keeps(a, 4, 4_194_304);
    W32Keeps(b, 28, 8192);
    SpliceArea(W32(b, 28, 8192), JournalArea(jblk));
  }

  lemma SpliceArea(raw: Raw, ib: Area)
    ensures var r: Raw := Splice(raw, AREA_AT, ib);
      && AreaOf(r) == ib && R16(r, 0) == R16(raw, 0) && R16(r, 26) == R16(raw, 26) && R16(r, 128) == R16(raw, 128)
      && R32(r, 4) == R32(raw, 4) && R32(r, 28) == R32(raw, 28) && R32(r, 108) == R32(raw, 108)
  {
  }

  /** The inode of the journal names it once, and says how long it is. */
  ghost predicate JournalInode(d: Disk) {
    && Tallied(d, JOURNAL_INO, 1, Consecutive(RING_AT, RING_BLOCKS))
    && Size(InodeAt(d, JOURNAL_INO)) == 4096 * RING_BLOCKS && Mode(InodeAt(d, JOURNAL_INO)) == MODE_JOURNAL
  }

  lemma SavedJournal(d: Disk, raw: Raw, csum: bool)
    requires InodeBlock(JOURNAL_INO) < |d| && R16(raw, 128) <= 128 && Mode(raw) == MODE_JOURNAL
    requires R16(raw, 26) == 1 && R32(raw, 28) == 8 * RING_BLOCKS && Size(raw) == 4096 * RING_BLOCKS
    ensures JournalInode(Saved(d, JOURNAL_INO, raw, csum))
  {
    hide R16, R32, Mode, Size, Saved, Stamped, InodeAt, InodeBlock;
    SavedReads(d, JOURNAL_INO, raw, csum, JOURNAL_INO);
    StampedIsOk(JOURNAL_INO, raw, csum);
    SameArea(raw, Stamped(JOURNAL_INO, raw, csum));
  }

  lemma RingIsUsed(d: Disk, geo: Geometry)
    requires ValidGeo(geo) && RING_AT + RING_BLOCKS <= GroupBlocks(geo, 0) && FreshUse(d, geo, RING_BLOCKS)
    ensures MetaUsed(d, geo) && OwnBlocks(d, geo, Consecutive(RING_AT, RING_BLOCKS))
  {
    hide Used;
    FullGroups(geo, 0);
    var p := Consecutive(RING_AT, RING_BLOCKS);
    forall x | x in p
      ensures x in UsedSet(d, geo) && !IsMeta(x)
    {
      var i :| 0 <= i < |p| && p[i] == x;
      PartsBlock(0, x);
    }
  }

  lemma JournalInUse(d: Disk, geo: Geometry)
    requires ValidGeo(geo) && FreshUse(d, geo, RING_BLOCKS)
    ensures FreshInos(d, geo, 0)
  {
    hide Bit, InodeMapBlock;
    forall j: nat | IsIno(geo, j)
      ensures Marked(d, j) <==> j < 11
    {
      assert FreshMap(d, InodeGroup(j));
    }
  }

  /** The inodes in use are the ten reserved ones and the `k` behind them. */
  ghost predicate FreshInos(d: Disk, geo: Geometry, k: nat) {
    forall j: nat :: IsIno(geo, j) ==> (Marked(d, j) <==> j < 11 + k)
  }

  lemma FreshInosUsed(d: Disk, geo: Geometry, k: nat)
    requires ValidGeo(geo) && FreshInos(d, geo, k)
    ensures InoUsed(d, JOURNAL_INO) && InoUsed(d, ROOT_INO)
  {
    hide Marked;
    LowInodes(geo);
  }

  /** They stay so while the inode bitmaps do. */
  lemma FreshInosStay(d: Disk, e: Disk, geo: Geometry, k: nat)
    requires SameMaps(d, e, geo) && FreshInos(d, geo, k)
    ensures FreshInos(e, geo, k)
  {
    hide Bit, InodeMapBlock;
    forall j: nat | IsIno(geo, j)
      ensures Marked(e, j) <==> j < 11 + k
    {
      assert SameBlock(d, e, InodeMapBlock(InodeGroup(j)));
    }
  }

  /** The file system with no files but the journal. */
  lemma OnlyJournal(d: Disk, geo: Geometry, csum: bool, raw: Raw, p: seq<nat>)
    requires Accounting(d, geo) && MetaUsed(d, geo) && OwnBlocks(d, geo, p) && csum == geo.csum
    requires R16(raw, 128) <= 128 && Holds(AreaOf(raw), p)
    ensures IsIno(geo, JOURNAL_INO) && InodeBlock(JOURNAL_INO) < |d|
    requires InoUsed(d, JOURNAL_INO)
    ensures FsOk(Saved(d, JOURNAL_INO, raw, csum), geo, csum, map[JOURNAL_INO := p])
  {
    assert ValidGeo(geo) && geo.total <= |d| && IsIno(geo, JOURNAL_INO);
    InoIs(geo, JOURNAL_INO);
    EmptyIsOk(d, geo, csum);
    hide Accounting, MetaUsed, UsedSet, Distinct, R16, Holds, AreaOf, Saved, InodeBlock, IsIno, OthersKept, FsOk,
         IsMeta, Elems, InodeOk;
    var none: FileMap := map[];
    MidStart(d, geo, csum, none, JOURNAL_INO);
    MidSaved(d, d, geo, csum, none, JOURNAL_INO, raw, p);
    var e := Saved(d, JOURNAL_INO, raw, csum);
    InBounds(d, geo, p);
    NobodyKept(none, JOURNAL_INO, Elems(p));
    MidDone(d, e, geo, csum, none, JOURNAL_INO, p);
    assert none[JOURNAL_INO := p] == map[JOURNAL_INO := p];
  }

  lemma EmptyIsOk(d: Disk, geo: Geometry, csum: bool)
    requires Accounting(d, geo) && MetaUsed(d, geo) && csum == geo.csum
    ensures FsOk(d, geo, csum, map[])
  {
    hide Accounting, MetaUsed;
  }

  lemma NobodyKept(files: FileMap, ino: nat, s: set<nat>)
    requires files == map[]
    ensures Kept(files, ino) !! s
  {
  }

  /** mkfs_at, phases 2 to 6: tables, superblock, journal area, journal inode. The result is a sound
      file system in which inode 8 owns the 1024 blocks of the journal; inode 2 is reserved for the root. */
  method MakeFs(v: Device) returns (jblk: nat)
    requires v.Valid() && v.making && ValidGeo(v.geo) && v.geo.csum && v.geo.total <= |v.d|
    requires RING_AT + RING_BLOCKS <= GroupBlocks(v.geo, 0)
    modifies v`d, v`log, v`dirs
    ensures v.Valid() && |v.d| == |old(v.d)| && jblk == RING_AT && DirsOf(v.dirs, v.geo, 0) && JournalInode(v.d)
    ensures FsOk(v.d, v.geo, v.csum, map[JOURNAL_INO := Consecutive(jblk, RING_BLOCKS)]) && InoUsed(v.d, ROOT_INO)
    ensures FreshBlocks(v.d, v.geo, RING_BLOCKS) && FreshInos(v.d, v.geo, 0) && RingHeadOnly(old(v.d), v.d)
  {
    hide InoUsed, FsOk, Accounting, FreshUse, FreshBlocks, GroupBlocks, Overwrite, BlocksOf, Saved, Holds, R16,
         OwnBlocks, MetaUsed, JournalRaw, AreaOf, ValidGeo, InodeBlock, IsIno, FreshInos, RingHeadOnly, OnlyMeta,
         JournalSuper, TableWritten, BitmapsDone, SbFree, SbInodes, DirsOf, Counts,
         R32, Mode, Size, JournalInode;
    ghost var d0 := v.d;
    GeoSmall(v.geo);
    LowInodes(v.geo);
    assert ValidGeo(v.geo);
    Laid(v.geo);
    WriteTables(v);
    ghost var d1 := v.d;
    jblk := ReserveJournal(v);
    MetaFirst(d0, d1, v.d);
    RingIsUsed(v.d, v.geo);
    JournalInUse(v.d, v.geo);
    FreshInosUsed(v.d, v.geo, 0);
    JournalRawReads(jblk);
    JournalExtent(jblk);
    OnlyJournal(v.d, v.geo, v.csum, JournalRaw(jblk), Consecutive(jblk, RING_BLOCKS));
    SavedJournal(v.d, JournalRaw(jblk), v.csum);
    SavedMarks(v.d, v.geo, JOURNAL_INO, JournalRaw(jblk), v.csum);
    SavedUse(v.d, v.geo, JOURNAL_INO, JournalRaw(jblk), v.csum);
    ghost var d2 := v.d;
    Save(v, JOURNAL_INO, JournalRaw(jblk));
    SavedMeta(d2, v.geo, JOURNAL_INO, JournalRaw(jblk), v.csum);
    ThenMeta(d0, d2, v.d);
    FreshInosUsed(v.d, v.geo, 0);
  }

  lemma Laid(geo: Geometry)
    requires ValidGeo(geo)
    ensures LaidOut(geo)
  {
  }

  lemma MetaFirst(d: Disk, e: Disk, f: Disk)
    requires OnlyMeta(d, e) && RingHeadOnly(e, f)
    ensures RingHeadOnly(d, f)
  {
    hide JournalSuper, IsMeta;
  }

  lemma SavedMeta(d: Disk, geo: Geometry, ino: nat, raw: Raw, csum: bool)
    requires ValidGeo(geo) && geo.total <= |d| && IsIno(geo, ino) && ino < U32_LIMIT && InodeBlock(ino) < |d|
      && R16(raw, 128) <= 128
    ensures OnlyMeta(d, Saved(d, ino, raw, csum))
  {
    InoIs(geo, ino);
    hide Stamped, Splice;
  }

  /** Saving an inode marks nothing. */
  lemma SavedMarks(d: Disk, geo: Geometry, ino: nat, raw: Raw, csum: bool)
    requires ValidGeo(geo) && geo.total <= |d| && IsIno(geo, ino) && ino < U32_LIMIT && InodeBlock(ino) < |d|
      && R16(raw, 128) <= 128
    requires FreshInos(d, geo, 0)
    ensures FreshInos(Saved(d, ino, raw, csum), geo, 0)
  {
    assert ino >= 1;
    InoIs(geo, ino);
    hide *;
    SavedChanged(d, ino, raw, csum);
    MapsKept(d, Saved(d, ino, raw, csum), geo, {InodeBlock(ino)});
    FreshInosStay(d, Saved(d, ino, raw, csum), geo, 0);
  }

  lemma SavedUse(d: Disk, geo: Geometry, ino: nat, raw: Raw, csum: bool)
    requires Accounting(d, geo) && IsIno(geo, ino) && ino < U32_LIMIT && InodeBlock(ino) < |d| && R16(raw, 128) <= 128
    requires FreshUse(d, geo, RING_BLOCKS)
    ensures FreshBlocks(Saved(d, ino, raw, csum), geo, RING_BLOCKS)
  {
    MidSavedUse(d, geo, ino, raw, csum);
    hide Accounting, IsIno, InodeBlock, Saved, Used, FreshMaps, IsMeta;
    forall x: nat | x < geo.total
      ensures Used(Saved(d, ino, raw, csum), x) <==> Used(d, x)
    {
      assert x in UsedSet(Saved(d, ino, raw, csum), geo) <==> x in UsedSet(d, geo);
    }
  }

  lemma LowInodes(geo: Geometry)
    requires ValidGeo(geo)
    ensures IsIno(geo, JOURNAL_INO) && IsIno(geo, ROOT_INO)
  {
  }

  lemma GeoSmall(geo: Geometry)
    requires ValidGeo(geo)
    ensures geo.total < U32_LIMIT
  {
  }
}
