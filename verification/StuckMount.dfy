/** Commands after whose failure a volume cannot be mounted: every write that makes an existing file longer
    or shorter by a block has such a point. */
module StuckMount {
  import opened Bytes
  import opened Collections
  import opened Wrappers
  import opened Disk
  import opened Bitmap
  import opened JournalFormat
  import opened Journal
  import opened JournalCrash
  import opened JournalRun
  import opened JournalExact
  import opened JournalGuards
  import opened Volume
  import opened Inodes
  import opened InodeAlloc
  import opened Files
  import opened FileSystem
  import opened FreeSpace
  import opened FileWrite
  import opened DirectoryOps
  import opened DirCatalog
  import opened DirSteps
  import opened NamedFiles
  import opened Mkfs
  import opened Format
  import opened FileCrash
  import opened CommandCrash
  import opened MountCheck

  // ---- the free block count of the superblock ----

  function UsedTo(d: Disk, n: nat): set<nat> { set x: nat | x < n && Used(d, x) }

  lemma OneMore(d: Disk, n: nat)
    ensures |UsedTo(d, n + 1)| == |UsedTo(d, n)| + if Used(d, n) then 1 else 0
  {
    hide Used;
    if Used(d, n) {
      assert UsedTo(d, n + 1) == UsedTo(d, n) + {n};
    } else {
      assert UsedTo(d, n + 1) == UsedTo(d, n);
    }
  }

  /** Used and clear bits of a group. */
  lemma {:induction false} GroupCounts(d: Disk, g: nat, k: nat)
    requires k <= BPG && BitmapBlock(g) < |d|
    ensures ZeroBits(d[BitmapBlock(g)], k) + |UsedTo(d, FirstBlock(g) + k)| == k + |UsedTo(d, FirstBlock(g))|
    decreases k
  {
    hide UsedTo, Bit;
    if k > 0 {
      GroupCounts(d, g, k - 1);
      OneMore(d, FirstBlock(g) + (k - 1));
      PartsBlock(g, k - 1);
    }
  }

  /** The end of the first `n` groups. */
  function GroupsEnd(geo: Geometry, n: nat): nat { if FirstBlock(n) < geo.total then FirstBlock(n) else geo.total }

  lemma {:induction false} CountGroups(d: Disk, geo: Geometry, n: nat)
    requires Accounting(d, geo) && n <= geo.groups
    ensures FreeSum(d[1], n) + |UsedTo(d, GroupsEnd(geo, n))| == GroupsEnd(geo, n)
    decreases n
  {
    hide Sums, InodeCounts, FreeOf, DescAt, ZeroBits, BitmapPtr, InodeMapPtr, InodeTablePtr, UsedTo, SbFree;
    if n > 0 {
      CountGroups(d, geo, n - 1);
      assert GroupOk(d, geo, n - 1);
      GroupCounts(d, n - 1, GroupBlocks(geo, n - 1));
      GroupEnds(geo, n);
    } else {
      assert UsedTo(d, 0) == {} by {
        NoneUsed(d);
      }
    }
  }

  lemma NoneUsed(d: Disk)
    ensures UsedTo(d, 0) == {}
  {
  }

  lemma GroupEnds(geo: Geometry, n: nat)
    requires ValidGeo(geo) && 0 < n <= geo.groups
    ensures GroupsEnd(geo, n - 1) == FirstBlock(n - 1)
    ensures GroupsEnd(geo, n) == FirstBlock(n - 1) + GroupBlocks(geo, n - 1)
  {
  }

  /** The superblock counts exactly the blocks that are not in use. */
  lemma FreeIsRest(d: Disk, geo: Geometry)
    requires Accounting(d, geo)
    ensures |d| > 0 && SbFree(d[0]) + |UsedSet(d, geo)| == geo.total
  {
    hide Sums, InodeCounts, GroupOk, FreeSum, Used, SbFree;
    CountGroups(d, geo, geo.groups);
    assert GroupsEnd(geo, geo.groups) == geo.total;
    assert UsedTo(d, geo.total) == UsedSet(d, geo);
  }

  // ---- the free inode count ----

  lemma {:induction false} SameZeroBits(b: Block, e: Block, n: nat)
    requires n <= BPG && forall k: nat :: k < n ==> (Bit(e, k) <==> Bit(b, k))
    ensures ZeroBits(e, n) == ZeroBits(b, n)
  {
    hide Bit;
    if n > 0 {
      SameZeroBits(b, e, n - 1);
    }
  }

  /** If no inode was marked or unmarked, the count is the same. */
  lemma SameInodeCount(d: Disk, e: Disk, geo: Geometry)
    requires Accounting(d, geo) && Accounting(e, geo) && MarksKept(d, e, geo)
    ensures |d| > 0 && |e| > 0 && SbInodes(e[0]) == SbInodes(d[0])
  {
    hide Sums, BlockCounts, FreeInodesOf, DescAt, ZeroBits, InodeSum, SbInodes, MarksKept;
    forall g: nat | g < geo.groups
      ensures FreeInodesOf(DescAt(e[1], g)) == FreeInodesOf(DescAt(d[1], g))
    {
      assert InodesOk(d, g) && InodesOk(e, g);
      SameMapBits(d, e, geo, g);
      SameZeroBits(d[InodeMapBlock(g)], e[InodeMapBlock(g)], IPG);
    }
    SameInodeSum(d[1], e[1], geo.groups);
  }

  lemma SameMapBits(d: Disk, e: Disk, geo: Geometry, g: nat)
    requires MarksKept(d, e, geo) && g < geo.groups && InodeMapBlock(g) < |d| && InodeMapBlock(g) < |e|
    ensures forall k: nat :: k < IPG ==> (Bit(e[InodeMapBlock(g)], k) <==> Bit(d[InodeMapBlock(g)], k))
  {
    hide Bit, InodeMapBlock;
    forall k: nat | k < IPG
      ensures Bit(e[InodeMapBlock(g)], k) <==> Bit(d[InodeMapBlock(g)], k)
    {
      InoParts(g, k);
      assert InoUsed(e, InoOf(g, k)) <==> InoUsed(d, InoOf(g, k));
    }
  }

  // ---- the torn superblock of such a command ----

  lemma CountersOf(b: Block)
    ensures SbFree(b) == R32(SbOf(b), 12) + U32_LIMIT * R32(SbOf(b), 340) && SbInodes(b) == R32(SbOf(b), 16)
  {
    SpliceSame(b);
    SbSpliceReads(b, SbOf(b));
    SbInodesSplice(b, SbOf(b));
  }

  lemma SpliceSame(b: Block)
    ensures Splice(b, SB_AT, SbOf(b)) == b
  {
  }

  /** Another number of blocks in use, and the same inodes: the checksum tells a split superblock. */
  lemma BlocksTell(d0: Disk, d: Disk, geo: Geometry)
    requires Accounting(d0, geo) && Accounting(d, geo) && MarksKept(d0, d, geo) && HeaderKept(d0, d)
    requires |UsedSet(d, geo)| != |UsedSet(d0, geo)| && geo.total < U32_LIMIT
    ensures |d0| > 0 && |d| > 0 && SameRest(d0[0], d[0]) && !MixedFits(d0[0], d[0]) && d0[0] != d[0]
  {
    hide Accounting, UsedSet, MarksKept, SameRest, SbOf, R32, SbFree, SbInodes, MixedFits;
    FreeIsRest(d0, geo);
    FreeIsRest(d, geo);
    SameInodeCount(d0, d, geo);
    CountersOf(d0[0]);
    CountersOf(d[0]);
    OneCounter(d0[0], d[0], 12);
  }

  lemma MountsNow(d: Disk, geo: Geometry)
    requires Accounting(d, geo)
    ensures |d| > 0 && Mounts(d[0], geo)
  {
    hide BlockCounts, InodeCounts, SumsOk, Mounts;
  }

  /** Power failing between sectors 2 and 3 of raw write `k` of the commit leaves a disk that does not mount. */
  ghost predicate Sticks(s: Sys, ws: seq<BlockWrite>, k: nat) {
    && WellSized(s) && s.j.seqNo + 1 < U32_LIMIT && (forall n :: 0 <= n < |ws| ==> ws[n].blk < |s.d|)
    && var c := CrashOf(s, ws, |ws|, k, 3);
       c.Some? && |c.value| > 0 && CheckSuper(c.value[0]) == Err(Io)
  }

  /** On a volume with checksums every command that changes how many blocks are in use, but no inode, has a
      failure point after which mount_at answers Io. */
  lemma CanStick(s: Sys, ws: seq<BlockWrite>, d0: Disk, d: Disk, geo: Geometry) returns (k: nat)
    requires OneTransaction(s, ws, d0, d) && s.j.base > 0 && geo.csum && geo.total < U32_LIMIT
    requires Accounting(d0, geo) && Accounting(d, geo) && MarksKept(d0, d, geo) && HeaderKept(d0, d)
      && |UsedSet(d, geo)| != |UsedSet(d0, geo)|
    ensures Sticks(s, ws, k)
  {
    hide Accounting, MarksKept, UsedSet, OneTransaction, Mounts, SameRest, MixedFits, HeaderKept, CrashOf, CheckSuper,
         Home, ExecWrites, Overwrite, BlocksOf;
    BlocksTell(d0, d, geo);
    MountsNow(d0, geo);
    MountsNow(d, geo);
    SuperWritten(s, ws, d0, d);
    k := HalfSuperPoint(s, ws, d0, d);
    CutMounts(s, ws, d0, d, geo, |ws|, k, 3);
  }

  lemma SuperWritten(s: Sys, ws: seq<BlockWrite>, d0: Disk, d: Disk)
    requires OneTransaction(s, ws, d0, d) && |d0| > 0 && |d| > 0 && d0[0] != d[0]
    ensures 0 in BlocksOf(ws)
  {
    hide JournalIdle, PlainPayloads, Home, Overwrite, BlocksOf, RingOf, Capacity, ClearOf;
    if 0 !in BlocksOf(ws) {
      OverwriteOther(d0, ws, 0);
    }
  }

  // ---- write_file ----

  /** The blocks that a named file has. */
  ghost function BlocksHeld(d: Disk, files: FileMap, dir: nat, name: seq<Byte>): seq<nat> {
    var view := ViewOf(d, files, dir);
    if name in view then OldBlocks(files, view[name].ino) else []
  }

  lemma OwnHeld(d: Disk, geo: Geometry, csum: bool, files: FileMap, dir: nat, c: Catalog, name: seq<Byte>)
    requires Represents(d, geo, csum, files, dir, c) && name in c.files
    ensures var p := BlocksHeld(d, files, dir, name); Distinct(p) && Elems(p) <= UsedSet(d, geo)
  {
    ContentsOf(d, geo, csum, files, dir, c, name);
    var ino := ViewOf(d, files, dir)[name].ino;
    Sound(d, geo, csum, files, dir, c);
    StateFs(d, geo, csum, files, dir);
    hide ViewOf, Represents, DirState, FsOk, UsedSet;
    MidStart(d, geo, csum, files, ino);
  }

  /** The blocks in use before and after. */
  lemma ResizedUse(d0: Disk, d: Disk, geo: Geometry, csum: bool, files: FileMap, after: FileMap, dir: nat, c: Catalog,
                   name: seq<Byte>, n: nat)
    requires Represents(d0, geo, csum, files, dir, c) && name in c.files
    requires Refilled(d0, d, geo, files, after, dir, name, n, None)
    ensures |UsedSet(d, geo)| == |UsedSet(d0, geo)| - |BlocksHeld(d0, files, dir, name)| + n && MarksKept(d0, d, geo)
  {
    hide Represents, ViewOf, UsedSet, MarksKept, OldBlocks, InLine, FreeList, Elems, BlocksHeld;
    OwnHeld(d0, geo, csum, files, dir, c, name);
    var ino, used := ViewOf(d0, files, dir)[name].ino, UsedSet(d0, geo);
    HeldBy(d0, files, dir, name);
    DistinctSize(OldBlocks(files, ino));
    LineIsNew(used - Elems(OldBlocks(files, ino)), geo.total, after[ino]);
    Exchanged(used, Elems(OldBlocks(files, ino)), Elems(after[ino]));
  }

  lemma HeldBy(d: Disk, files: FileMap, dir: nat, name: seq<Byte>)
    requires name in ViewOf(d, files, dir)
    ensures BlocksHeld(d, files, dir, name) == OldBlocks(files, ViewOf(d, files, dir)[name].ino)
  {
  }

  lemma Exchanged(used: set<nat>, was: set<nat>, next: set<nat>)
    requires was <= used && next !! used - was
    ensures |used - was + next| == |used| - |was| + |next|
  {
    assert used == used - was + was;
    assert |used - was + was| == |used - was| + |was|;
    assert |used - was + next| == |used - was| + |next|;
  }

  lemma LineIsNew(used: set<nat>, total: nat, p: seq<nat>)
    requires InLine(FreeList(used, total), p)
    ensures Distinct(p) && |Elems(p)| == |p| && Elems(p) !! used
  {
    FreeFromOrder(used, 0, total);
    IncreasingDistinct(FreeList(used, total));
    var f := FreeList(used, total);
    hide FreeList;
    assert forall i :: 0 <= i < |p| ==> p[i] == f[i];
    DistinctSize(p);
  }

  /** write_file on a known file, when the number of its blocks changes: if the command fits the journal, power
      can fail so that the volume never mounts again. */
  method WriteCanStick(d0: Disk, geo: Geometry, dir: nat, name: seq<Byte>, data: seq<Byte>, ghost files: FileMap,
                       ghost c: Catalog, ghost s: Sys)
    returns (v: Device, err: Option<FsErr>, ghost k: nat)
    requires JournalIdle(s) && d0 == Home(s.d, s.j.base) && |d0| == geo.total < U32_LIMIT && geo.csum && s.j.base > 0
    requires Represents(d0, geo, true, files, dir, c) && JournalHidden(d0, files, dir, s.j.base)
    requires |name| < 256 && |data| < U32_LIMIT && name in c.files
    ensures fresh(v) && err == Answer(d0, geo, files, dir, c, Command.Write(name, data)).0
    ensures err.None? && NumBlocks(|data|) != |BlocksHeld(d0, files, dir, name)| && FitsOnce(s, v.log) ==>
              OneTransaction(s, v.log, d0, v.d) && Sticks(s, v.log, k)
  {
    hide Represents, Answer, Allowed, Shielded, JournalIdle, PlainPayloads, Home, Overwrite, Capacity, BlocksOf, Elems,
         Avoids, RingOf, FitsOnce, Spent, NumBlocks, OneTransaction, Sticks, Refilled, HeaderKept,
         Accounting, UsedSet, MarksKept, NewFailed, BlocksHeld;
    k := 0;
    v := new Device(d0, geo, false);
    NoneWritten();
    ghost var after, now;
    err, after, now := WriteFile(v, dir, name, data, files, c, JOURNAL_INO);
    RingIs(d0, files, dir, s.j.base);
    if err.None? && NumBlocks(|data|) != |BlocksHeld(d0, files, dir, name)| && FitsOnce(s, v.log) {
      OnceFits(s, v.log, d0, v.d);
      k := Resized(s, v.log, d0, v.d, geo, files, after, dir, c, now, name, NumBlocks(|data|));
    }
  }

  lemma Resized(s: Sys, ws: seq<BlockWrite>, d0: Disk, d: Disk, geo: Geometry, files: FileMap, after: FileMap, dir: nat,
                c: Catalog, now: Catalog, name: seq<Byte>, n: nat)
    returns (k: nat)
    requires OneTransaction(s, ws, d0, d) && s.j.base > 0 && geo.csum && geo.total < U32_LIMIT && HeaderKept(d0, d)
    requires Represents(d0, geo, true, files, dir, c) && Represents(d, geo, true, after, dir, now) && name in c.files
    requires Refilled(d0, d, geo, files, after, dir, name, n, None) && n != |BlocksHeld(d0, files, dir, name)|
    ensures Sticks(s, ws, k)
  {
    hide Represents, Refilled, BlocksHeld, Accounting, UsedSet, MarksKept, OneTransaction, Sticks, HeaderKept;
    ResizedUse(d0, d, geo, true, files, after, dir, c, name, n);
    Counted(d0, geo, true, files, dir, c);
    Counted(d, geo, true, after, dir, now);
    k := CanStick(s, ws, d0, d, geo);
  }

  lemma Counted(d: Disk, geo: Geometry, csum: bool, files: FileMap, dir: nat, c: Catalog)
    requires Represents(d, geo, csum, files, dir, c)
    ensures Accounting(d, geo)
  {
    Sound(d, geo, csum, files, dir, c);
    StateFs(d, geo, csum, files, dir);
    hide Represents, DirState, Accounting;
    FsParts(d, geo, csum, files);
  }
}
