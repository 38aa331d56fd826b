/** mkdir, and the directories mkfs leaves: six empty ones and the root that names them. */
module RootDir {
  import opened Bytes
  import opened Collections
  import opened Wrappers
  import opened Disk
  import Bitmap
  import Extents
  import opened Volume
  import opened Inodes
  import opened InodeAlloc
  import opened Files
  import opened FileSystem
  import opened FreeSpace
  import opened FileWrite
  import opened Directory
  import opened DirectoryOps
  import opened DirCatalog
  import opened DirSteps
  import opened NamedFiles
  import opened MakeDir
  import opened Mkfs
  import opened Format

  // ---- steps of mkdir, seen from the parent directory ----

  /** A new directory beside the parent. */
  lemma ChildShown(d: Disk, e: Disk, geo: Geometry, csum: bool, files: FileMap, dir: nat, ino: nat, blk: nat)
    requires DirState(d, geo, csum, files, dir) && ino != dir
    requires FsOk(e, geo, csum, files[ino := [blk]]) && OthersKept(d, e, geo, ino, Kept(files, ino))
    ensures var after := files[ino := [blk]];
      && DirState(e, geo, csum, after, dir) && ViewOf(e, after, dir) == ViewOf(d, files, dir)
      && Spared(d, e, files, after, dir, ino) && dir in files && FileKept(d, e, files[dir], dir) && InoUsed(e, ino)
  {
    hide *;
    StateFs(d, geo, csum, files, dir);
    DirUntouched(d, e, geo, csum, files, files[ino := [blk]], dir, ino);
    SparedBy(d, e, geo, csum, files, files[ino := [blk]], dir, ino, ino);
    KeptFile(d, e, geo, csum, files, ino, dir);
    FsFile(e, geo, csum, files[ino := [blk]], ino);
  }

  function MoreLinks(raw: Extents.Raw): (r: Extents.Raw) { W16(raw, 26, (R16(raw, 26) + 1) % 0x1_0000) }

  lemma MoreLinksReads(raw: Extents.Raw)
    ensures var r := MoreLinks(raw);
      && AreaOf(r) == AreaOf(raw) && Mode(r) == Mode(raw) && Size(r) == Size(raw) && R16(r, 128) == R16(raw, 128)
      && R16(r, 26) == (R16(raw, 26) + 1) % 0x1_0000 && R32(r, 28) == R32(raw, 28)
  {
    hide R16, R32, W16;
    var n := (R16(raw, 26) + 1) % 0x1_0000;
    W16Keeps(raw, 26, n);
    assert AreaOf(W16(raw, 26, n)) == AreaOf(raw);
  }

  /** Saving a directory's record with the same fields keeps the directory. */
  lemma ResavedShown(d: Disk, geo: Geometry, csum: bool, files: FileMap, dir: nat, raw: Extents.Raw)
    requires DirState(d, geo, csum, files, dir) && IsIno(geo, dir) && dir < U32_LIMIT && InodeBlock(dir) < |d|
    requires var was := InodeAt(d, dir);
      AreaOf(raw) == AreaOf(was) && Mode(raw) == Mode(was) && Size(raw) == Size(was)
        && R16(raw, 128) == R16(was, 128) <= 128
    ensures var e := Saved(d, dir, raw, csum);
      && DirState(e, geo, csum, files, dir) && ViewOf(e, files, dir) == ViewOf(d, files, dir)
         && Spared(d, e, files, files, dir, dir)
      && UsedSet(e, geo) == UsedSet(d, geo) && MarksKept(d, e, geo)
  {
    assert dir >= 1;
    hide *;
    var e := Saved(d, dir, raw, csum);
    StateFs(d, geo, csum, files, dir);
    StateRecord(d, geo, csum, files, dir);
    StateFacts(d, geo, csum, files, dir);
    ResavedFs(d, geo, csum, files, dir, raw);
    ResavedDir(d, geo, csum, files, dir, raw);
    SameMarks(d, e, geo, dir, Kept(files, dir));
    SparedBy(d, e, geo, csum, files, files, dir, dir, dir);
  }

  lemma ResavedFs(d: Disk, geo: Geometry, csum: bool, files: FileMap, dir: nat, raw: Extents.Raw)
    requires FsOk(d, geo, csum, files) && IsIno(geo, dir) && dir < U32_LIMIT && InodeBlock(dir) < |d| && dir in files
    requires R16(raw, 128) <= 128 && Extents.Holds(AreaOf(raw), files[dir])
    ensures var e := Saved(d, dir, raw, csum);
      && FsOk(e, geo, csum, files) && OthersKept(d, e, geo, dir, Kept(files, dir)) && UsedSet(e, geo) == UsedSet(d, geo)
  {
    assert dir >= 1;
    hide *;
    var e, p := Saved(d, dir, raw, csum), files[dir];
    FsFile(d, geo, csum, files, dir);
    MidStart(d, geo, csum, files, dir);
    OldIs(files, dir);
    MidSaved(d, d, geo, csum, files, dir, raw, p);
    MidDone(d, e, geo, csum, files, dir, p);
    assert files[dir := p] == files;
    MidOthers(d, e, geo, files, dir);
  }

  lemma ResavedDir(d: Disk, geo: Geometry, csum: bool, files: FileMap, dir: nat, raw: Extents.Raw)
    requires DirState(d, geo, csum, files, dir) && IsIno(geo, dir) && dir < U32_LIMIT && InodeBlock(dir) < |d|
    requires var was := InodeAt(d, dir); Mode(raw) == Mode(was) && Size(raw) == Size(was) && R16(raw, 128) <= 128
    requires FsOk(Saved(d, dir, raw, csum), geo, csum, files) && ValidGeo(geo) && geo.total <= |d|
      && DataList(geo, files[dir])
    ensures var e := Saved(d, dir, raw, csum);
            DirState(e, geo, csum, files, dir) && ViewOf(e, files, dir) == ViewOf(d, files, dir)
  {
    var e, p := Saved(d, dir, raw, csum), files[dir];
    hide FsOk, IsIno, InodeBlock, R16, R32, AreaOf, Saved, Stamped, Mode, Size, InodeAt, DataList, Changed, DirOk,
         DirectoryOps.Entries, AsMap, DistinctNames, Elems, ValidGeo;
    SavedChanged(d, dir, raw, csum);
    ResavedFields(d, dir, raw, csum);
    InoIs(geo, dir);
    ApartFromMeta(p, geo, InodeBlock(dir));
    SameDirectory(d, e, geo, dir, p, {InodeBlock(dir)});
  }

  lemma ResavedFields(d: Disk, dir: nat, raw: Extents.Raw, csum: bool)
    requires 1 <= dir < U32_LIMIT && InodeBlock(dir) < |d| && R16(raw, 128) <= 128
    ensures var r := InodeAt(Saved(d, dir, raw, csum), dir); Mode(r) == Mode(raw) && Size(r) == Size(raw)
  {
    hide *;
    SavedReads(d, dir, raw, csum, dir);
    StampedIsOk(dir, raw, csum);
    SameArea(raw, Stamped(dir, raw, csum));
  }

  lemma ApartFromMeta(p: seq<nat>, geo: Geometry, x: nat)
    requires DataList(geo, p) && IsMeta(x)
    ensures {x} !! Elems(p)
  {
    hide IsMeta;
  }

  /** The parent gets one more link. */
  method AddLink(v: Device, dir: nat, ghost files: FileMap) returns (err: Option<FsErr>)
    requires v.Valid() && DirState(v.d, v.geo, v.csum, files, dir)
    modifies v`d, v`log
    ensures v.Valid() && err == None && DirState(v.d, v.geo, v.csum, files, dir)
      && ViewOf(v.d, files, dir) == ViewOf(old(v.d), files, dir)
    ensures Spared(old(v.d), v.d, files, files, dir, dir) && UsedSet(v.d, v.geo) == UsedSet(old(v.d), v.geo)
    ensures Avoids(BlocksOf(old(v.log)), BlocksOf(v.log), Kept(files, dir))
    ensures TallyMoves(old(v.d), v.d, dir, 1, 0) && MarksKept(old(v.d), v.d, v.geo)
  {
    hide DirState, ViewOf, Spared, UsedSet, Avoids, Kept, Accounting, Overwrite, BlocksOf, InodeAt, InodeBlock, IsIno,
         R16, R32, AreaOf, Mode, Size, Saved, MoreLinks, FsOk, DirOk, CsumOk, Extents.Holds;
    ghost var d, log0 := v.d, BlocksOf(v.log);
    StateRecord(d, v.geo, v.csum, files, dir);
    var got := Load(v, dir);
    if got.Err? {
      return Some(Io);
    }
    MoreLinksReads(got.value);
    ResavedShown(d, v.geo, v.csum, files, dir, MoreLinks(got.value));
    StateFs(d, v.geo, v.csum, files, dir);
    RecordAvoids(d, v.geo, v.csum, files, dir, log0);
    InoPositive(v.geo, dir);
    SavedTally(d, dir, MoreLinks(got.value), v.csum);
    SectorsFit(got.value);
    Save(v, dir, MoreLinks(got.value));
    return None;
  }

  lemma SectorsFit(raw: Extents.Raw)
    ensures R32(raw, 28) < U32_LIMIT
  {
  }

  lemma RecordAvoids(d: Disk, geo: Geometry, csum: bool, files: FileMap, ino: nat, a: set<nat>)
    requires FsOk(d, geo, csum, files) && IsIno(geo, ino)
    ensures Avoids(a, a + {InodeBlock(ino)}, Kept(files, ino))
  {
    assert ino >= 1;
    hide *;
    NoneIsOwn(geo, files, ino);
    NoElems();
    OnlyWroteOne(a, a + {InodeBlock(ino)}, InodeBlock(ino));
    assert Elems([]) + {InodeBlock(ino)} == {InodeBlock(ino)};
    DataAvoids(d, geo, csum, files, ino, [], a, a + {InodeBlock(ino)});
  }

  lemma BumpShown(d: Disk, e: Disk, geo: Geometry, csum: bool, files: FileMap, dir: nat)
    requires DirState(d, geo, csum, files, dir) && FsOk(e, geo, csum, files)
      && OthersKept(d, e, geo, 0, Kept(files, 0)) && 0 !in files
    ensures DirState(e, geo, csum, files, dir) && ViewOf(e, files, dir) == ViewOf(d, files, dir)
      && Spared(d, e, files, files, dir, dir)
  {
    hide DirState, FsOk, OthersKept, Kept, ViewOf, FileKept;
    StateFs(d, geo, csum, files, dir);
    DirUntouched(d, e, geo, csum, files, files, dir, 0);
    forall j | j in files
      ensures FileKept(d, e, files[j], j)
    {
      KeptFile(d, e, geo, csum, files, 0, j);
    }
    SparedAll(d, e, files, dir, dir);
  }

  /** The descriptor block is no file's. */
  lemma DescAvoids(d: Disk, geo: Geometry, csum: bool, files: FileMap, i: nat, a: set<nat>)
    requires FsOk(d, geo, csum, files)
    ensures Avoids(a, a + {1}, Kept(files, i))
  {
    KeptFacts(d, geo, csum, files, i);
    hide FsOk, Kept;
    assert IsMeta(1);
  }

  // ---- mkdir ----

  function WithDir(c: Catalog, name: seq<Byte>, ino: nat): Catalog {
    c.(others := c.others[name := Target(ino, FT_DIR)])
  }

  /** What mkdir answers, from the disk it starts with: an inode, a block for the new directory, and
      a place for its name, which may take one block more. */
  ghost function MkdirAnswer(d: Disk, geo: Geometry, files: FileMap, dir: nat, c: Catalog,
                             name: seq<Byte>): Option<FsErr> {
    var free := FreeList(UsedSet(d, geo), geo.total);
    if Known(c, name) then Some(Exists)
    else if NoInodeLeft(d, geo) || free == [] then Some(NoSpace)
    else if RoomIn(d, OldBlocks(files, dir), NeedFor(name)) then None
    else GrowOutcome(FreeList(UsedSet(d, geo) + Elems(Head(free)), geo.total), OldBlocks(files, dir))
  }

  /** The directory of this inode holds nothing but itself and its parent, and counts as two names. */
  ghost predicate EmptyDir(d: Disk, files: FileMap, ino: nat, parent: nat) {
    && ino in files && IsDirectory(d, ino, files[ino]) && DirOk(d, files[ino])
    && DirectoryOps.Entries(d, files[ino]) == DotEntries(ino, parent) && Tallied(d, ino, 2, files[ino])
  }

  lemma EmptyMade(d: Disk, files: FileMap, ino: nat, parent: nat, blk: nat)
    requires ino in files && files[ino] == [blk] && IsDirectory(d, ino, [blk]) && blk < |d|
    requires 0 < ino < U32_LIMIT && 0 < parent < U32_LIMIT && Fits(DotEntries(ino, parent), 0)
    requires d[blk] == Packed(ZERO_BLOCK, DotEntries(ino, parent), 0) && Tallied(d, ino, 2, [blk])
    ensures EmptyDir(d, files, ino, parent)
  {
    hide Packed, InodeAt, InodeBlock, BlockOk, Live, IsDirectory, DotEntries;
    PackedLive(DotEntries(ino, parent)) by {
      DotsFit(ino, parent);
      assert DotEntries(ino, parent) != [] by {
        TwoDots(ino, parent);
      }
    }
    OneBlockDir(d, blk);
  }

  lemma TwoDots(ino: nat, parent: nat)
    ensures |DotEntries(ino, parent)| == 2
  {
  }

  /** A directory of one block has that block's entries. */
  lemma OneBlockDir(d: Disk, blk: nat)
    requires blk < |d| && BlockOk(d[blk])
    ensures DirOk(d, [blk]) && DirectoryOps.Entries(d, [blk]) == Live(d[blk])
  {
    hide BlockOk, Live;
    assert [blk][..0] == [];
    assert DirectoryOps.Entries(d, []) == [];
  }

  /** A directory whose inode and blocks were kept is still empty. */
  lemma EmptyKept(d: Disk, e: Disk, files: FileMap, after: FileMap, ino: nat, parent: nat)
    requires EmptyDir(d, files, ino, parent) && FileKept(d, e, files[ino], ino)
    requires ino in after && after[ino] == files[ino]
    ensures EmptyDir(e, after, ino, parent)
  {
    InodeKept(d, e, files, ino);
    hide FileKept, DirOk, DirectoryOps.Entries, DotEntries, IsDirectory, InodeAt, InodeBlock;
    KeptDirectory(d, e, files[ino], ino);
  }

  lemma EmptyStays(d: Disk, e: Disk, files: FileMap, after: FileMap, dir: nat, ino: nat, parent: nat)
    requires EmptyDir(d, files, ino, parent) && Spared(d, e, files, after, dir, dir) && ino != dir
    ensures EmptyDir(e, after, ino, parent)
  {
    hide FileKept, DirOk, DirectoryOps.Entries, DotEntries, IsDirectory, Tallied;
    EmptyKept(d, e, files, after, ino, parent);
  }

  lemma OtherShown(d: Disk, e: Disk, geo: Geometry, csum: bool, files: FileMap, after: FileMap, dir: nat, ino: nat,
                   c: Catalog, name: seq<Byte>)
    requires Represents(d, geo, csum, files, dir, c) && DirState(e, geo, csum, after, dir)
      && name !in ViewOf(d, files, dir)
    requires ViewOf(e, after, dir) == ViewOf(d, files, dir)[name := Target(ino, FT_DIR)]
    requires Spared(d, e, files, after, dir, ino) && ino !in files
    ensures Represents(e, geo, csum, after, dir, WithDir(c, name, ino))
  {
    hide DirState, ViewOf, FileIs, Spared;
    var view, now, c2 := ViewOf(d, files, dir), ViewOf(e, after, dir), WithDir(c, name, ino);
    forall a | a in c2.files && IsFile(now, a)
      ensures FileIs(e, after, dir, now[a].ino, c2.files[a])
    {
      assert a in c.files && IsFile(view, a);
      InFiles(d, files, dir, view[a].ino, c.files[a]);
      FileStays(d, e, files, after, dir, ino, view[a].ino, c.files[a]);
    }
  }

  /** The parent got `links` more names and counts the blocks it grew by. */
  ghost predicate ParentTally(d: Disk, e: Disk, files: FileMap, after: FileMap, dir: nat, links: nat) {
    && dir in files && dir in after && |files[dir]| <= |after[dir]|
    && TallyMoves(d, e, dir, links, |after[dir]| - |files[dir]|)
  }

  /** Steps that leave the parent's inode before and after. */
  lemma ParentThen(d: Disk, m: Disk, n: Disk, f: Disk, files: FileMap, mid: FileMap, after: FileMap, dir: nat)
    requires dir in files && dir in mid && mid[dir] == files[dir] && dir in after && |mid[dir]| <= |after[dir]|
    requires SameInode(d, m, dir) && SameInode(m, n, dir) && TallyMoves(n, f, dir, 0, |after[dir]| - |mid[dir]|)
    ensures ParentTally(d, f, files, after, dir, 0)
  {
    hide InodeAt, InodeBlock;
    assert SameInode(d, n, dir);
  }

  lemma ParentSame(d: Disk, geo: Geometry, csum: bool, files: FileMap, dir: nat)
    requires DirState(d, geo, csum, files, dir)
    ensures ParentTally(d, d, files, files, dir, 0)
  {
    hide DirState, TallyMoves;
    DirTally(d, geo, csum, files, dir);
  }

  lemma ParentKept(d: Disk, m: Disk, n: Disk, files: FileMap, dir: nat)
    requires dir in files && SameInode(d, m, dir) && SameInode(m, n, dir)
    ensures ParentTally(d, n, files, files, dir, 0)
  {
    hide TallyMoves, InodeAt, InodeBlock;
    TallyStays(n, n, dir);
    ParentThen(d, m, n, n, files, files, files, dir);
  }

  lemma InodeKept(d: Disk, e: Disk, files: FileMap, dir: nat)
    requires dir in files && FileKept(d, e, files[dir], dir)
    ensures SameInode(d, e, dir)
  {
    hide SameInode;
  }

  lemma InodeHere(d: Disk, e: Disk, dir: nat)
    requires SameInode(d, e, dir)
    ensures SameInode(e, e, dir)
  {
    hide InodeAt, InodeBlock;
  }

  lemma ParentApart(d: Disk, e: Disk, geo: Geometry, csum: bool, files: FileMap, dir: nat, ino: nat)
    requires DirState(d, geo, csum, files, dir) && OthersKept(d, e, geo, ino, Kept(files, ino)) && ino != dir
    ensures SameInode(d, e, dir)
  {
    StateRecord(d, geo, csum, files, dir);
    hide DirState, SameMaps, SameInode, SameBlock, IsIno;
  }

  /** mkdir up to the name: inode, block, entry. */
  method AddDirectory(v: Device, dir: nat, name: seq<Byte>, ghost files: FileMap, ghost c: Catalog, ghost g: nat)
    returns (err: Option<FsErr>, ghost after: FileMap, ino: nat)
    requires v.Valid() && Represents(v.d, v.geo, v.csum, files, dir, c) && |name| < 256 && !Known(c, name)
    modifies v`d, v`log
    ensures v.Valid() && DirState(v.d, v.geo, v.csum, after, dir)
    ensures err == MkdirAnswer(old(v.d), v.geo, files, dir, c, name)
    ensures var view := ViewOf(old(v.d), files, dir);
            ViewOf(v.d, after, dir) == if err.None? then view[name := Target(ino, FT_DIR)] else view
    ensures ino !in files && Spared(old(v.d), v.d, files, after, dir, ino)
    ensures err.None? ==> EmptyDir(v.d, after, ino, dir) && ino != dir && 0 < ino && InodeGroup(ino) < v.geo.groups
    ensures Clear(files, after, dir, ino, g, BlocksOf(old(v.log)), BlocksOf(v.log))
    ensures err.Some? ==> NewFailed(old(v.d), v.d, v.geo, files, ViewOf(old(v.d), files, dir))
    ensures ParentTally(old(v.d), v.d, files, after, dir, 0)
    ensures err.None? ==> TookDir(old(v.d), v.d, v.geo, files, after, dir, ino)
    ensures !NoInodeLeft(old(v.d), v.geo) ==>
              Elems(Head(FreeList(UsedSet(old(v.d), v.geo), v.geo.total))) <= UsedSet(v.d, v.geo)
  {
    hide DirState, ViewOf, Spared, FileIs, Represents, InoUsed, Overwrite, BlocksOf, UsedSet, Elems, AddTakes,
         InodeGroup, FreeList, NoInodeLeft, Avoids, Kept, OldBlocks, FileKept, NeedFor, SameBut, Clear, RoomIn,
         GrowOutcome, Head, DotEntries, Packed, Fits, EmptyDir, FsOk, IsDirectory, OthersKept, MarkGained, MarksKept,
         Tallied, ParentTally, TookDir;
    ghost var d, l0 := v.d, BlocksOf(v.log);
    Sound(d, v.geo, v.csum, files, dir, c);
    ContentsOf(d, v.geo, v.csum, files, dir, c, name);
    ino := 0;
    var got := NewIno(v, dir, files);
    if got.Err? {
      StateFs(d, v.geo, v.csum, files, dir);
      SparedSame(d, v.geo, v.csum, files, dir, 0);
      NoInodeZero(d, v.geo, v.csum, files);
      ClearSame(files, dir, 0, g, l0);
      ParentSame(d, v.geo, v.csum, files, dir);
      return Some(NoSpace), files, 0;
    }
    ino := got.value;
    ghost var m, l1 := v.d, BlocksOf(v.log);
    SameButSame(files, dir);
    ClearBy(files, files, dir, ino, g, l0, l1, dir);
    RoomSame(d, m, files[dir], dir, NeedFor(name));
    DirNumber(m, v.geo, v.csum, files, dir);
    StateFs(m, v.geo, v.csum, files, dir);
    DotsFit(ino, dir);
    TwoDots(ino, dir);
    var b := PackEntries(DotEntries(ino, dir));
    var made := NewDirectory(v, ino, b, 2, files);
    NoHead(FreeList(UsedSet(d, v.geo), v.geo.total));
    if made.Err? {
      SameAsIs(m, v.geo);
      ParentKept(d, m, m, files, dir) by {
        InodeKept(d, m, files, dir);
        InodeHere(d, m, dir);
      }
      Loses(d, m, m, v.d, v.geo, v.csum, files, dir, c, ino);
      return Some(NoSpace), files, ino;
    }
    SameMarks(m, v.d, v.geo, ino, Kept(files, ino));
    ghost var mid := files[ino := [made.value]];
    ghost var n, l2 := v.d, BlocksOf(v.log);
    ChildShown(m, n, v.geo, v.csum, files, dir, ino, made.value);
    SparedTrans(d, m, n, files, files, mid, dir, ino);
    EmptyMade(n, mid, ino, dir, made.value);
    PutElse(files, ino, [made.value]);
    ClearBy(files, mid, dir, ino, g, l1, l2, ino);
    ClearTrans(files, files, mid, dir, ino, g, l0, l1, l2);
    RoomSame(m, n, files[dir], dir, NeedFor(name));
    SameDir(files, mid, dir, ino);
    err, after := AddName(v, dir, name, Target(ino, FT_DIR), mid, ino);
    ghost var f, l3 := v.d, BlocksOf(v.log);
    SparedMore(n, f, mid, after, dir, ino);
    SparedTrans(d, n, f, files, mid, after, dir, ino);
    ClearBy(mid, after, dir, ino, g, l2, l3, dir);
    ClearTrans(files, mid, after, dir, ino, g, l0, l2, l3);
    EmptyStays(n, f, mid, after, dir, ino, dir);
    ParentThen(d, m, n, f, files, mid, after, dir) by {
      InodeKept(d, m, files, dir);
      ParentApart(m, n, v.geo, v.csum, files, dir, ino);
    }
    if err.Some? {
      Loses(d, m, n, f, v.geo, v.csum, files, dir, c, ino);
    } else {
      GainedThen(d, m, n, f, v.geo, ino);
      TookBoth(d, m, n, f, v.geo, v.csum, files, mid, after, dir, ino, made.value,
               AddTakes(n, v.geo, files[dir], NeedFor(name))) by {
        StateFs(d, v.geo, v.csum, files, dir);
        StateFs(f, v.geo, v.csum, after, dir);
      }
    }
  }

  /** One inode and one block were taken for the new directory, and what the parent grew by. */
  ghost predicate TookDir(d: Disk, e: Disk, geo: Geometry, files: FileMap, after: FileMap, dir: nat, ino: nat) {
    && MarkGained(d, e, geo, ino) && !InoUsed(d, ino) && ino in after && |after[ino]| == 1 && dir in after && ino != dir
    && UsedSet(e, geo) == UsedSet(d, geo) + Elems(after[ino]) + Elems(after[dir])
    && UsedSet(d, geo) !! Elems(after[ino]) && Elems(after[ino]) !! Elems(after[dir])
    && after.Keys == files.Keys + {ino} && SameBut(files[ino := after[ino]], after, dir)
  }

  lemma TookBoth(d: Disk, m: Disk, n: Disk, f: Disk, geo: Geometry, csum: bool, files: FileMap, mid: FileMap,
                 after: FileMap, dir: nat, ino: nat, blk: nat, more: seq<nat>)
    requires FsOk(d, geo, csum, files) && FsOk(f, geo, csum, after) && dir in files && ino !in files
    requires MarkGained(d, f, geo, ino) && !InoUsed(d, ino) && UsedSet(m, geo) == UsedSet(d, geo)
      && blk !in UsedSet(d, geo)
    requires UsedSet(n, geo) == UsedSet(m, geo) + {blk} && mid == files[ino := [blk]]
    requires after.Keys == mid.Keys && SameBut(mid, after, dir) && after[dir] == files[dir] + more
    requires UsedSet(f, geo) == UsedSet(n, geo) + Elems(more)
    ensures TookDir(d, f, geo, files, after, dir, ino)
  {
    hide FsOk, UsedSet, MarkGained, Elems, SameBut, InoUsed;
    OwnUsed(d, geo, csum, files, dir);
    MapsTook(files, mid, after, dir, ino, blk);
    FilesApart(f, geo, csum, after, ino, dir);
    JustThis(blk);
    ElemsOfBoth(files[dir], more);
    SetsTook(UsedSet(d, geo), Elems(files[dir]), Elems(more), blk);
  }

  lemma MapsTook(files: FileMap, mid: FileMap, after: FileMap, dir: nat, ino: nat, blk: nat)
    requires dir in files && ino !in files && mid == files[ino := [blk]] && after.Keys == mid.Keys
      && SameBut(mid, after, dir)
    ensures ino in after && after[ino] == [blk] && dir in after && ino != dir && after.Keys == files.Keys + {ino}
    ensures SameBut(files[ino := after[ino]], after, dir)
  {
    assert ino in mid && mid[ino] == [blk];
  }

  lemma SetsTook(u: set<nat>, q: set<nat>, r: set<nat>, blk: nat)
    requires q <= u
    ensures u + {blk} + r == u + {blk} + (q + r)
  {
  }

  lemma OwnUsed(d: Disk, geo: Geometry, csum: bool, files: FileMap, j: nat)
    requires FsOk(d, geo, csum, files) && j in files
    ensures Elems(files[j]) <= UsedSet(d, geo)
  {
    FsFile(d, geo, csum, files, j);
    hide FsOk, UsedSet, InodeOk, Elems, DataList, InoUsed;
  }

  lemma FilesApart(d: Disk, geo: Geometry, csum: bool, files: FileMap, i: nat, j: nat)
    requires FsOk(d, geo, csum, files) && i in files && j in files && i != j
    ensures Elems(files[i]) !! Elems(files[j])
  {
    hide Accounting, MetaUsed, FileOk, InoUsed;
  }

  lemma ElemsOfBoth(p: seq<nat>, q: seq<nat>)
    ensures Elems(p + q) == Elems(p) + Elems(q)
  {
  }

  lemma NoHead(f: seq<nat>)
    ensures f == [] ==> Elems(Head(f)) == {}
  {
  }

  lemma SameAsIs(d: Disk, geo: Geometry)
    ensures MarksKept(d, d, geo)
  {
    hide InoUsed, IsIno;
  }

  lemma ClearSame(files: FileMap, dir: nat, ino: nat, g: nat, a: set<nat>)
    ensures Clear(files, files, dir, ino, g, a, a)
  {
    hide Elems;
    if g in files {
      AvoidsSame(a, Elems(files[g]));
    }
  }

  lemma PutElse(files: FileMap, ino: nat, p: seq<nat>)
    ensures SameBut(files, files[ino := p], ino)
  {
  }

  lemma DirNumber(d: Disk, geo: Geometry, csum: bool, files: FileMap, dir: nat)
    requires DirState(d, geo, csum, files, dir)
    ensures 0 < dir < U32_LIMIT
  {
    StateRecord(d, geo, csum, files, dir);
    hide *;
  }

  lemma TookStays(d: Disk, f: Disk, h: Disk, e: Disk, geo: Geometry, files: FileMap, after: FileMap, dir: nat, ino: nat)
    requires TookDir(d, f, geo, files, after, dir, ino) && MarksKept(f, h, geo) && MarksKept(h, e, geo)
    requires UsedSet(h, geo) == UsedSet(f, geo) && UsedSet(e, geo) == UsedSet(h, geo)
    ensures TookDir(d, e, geo, files, after, dir, ino)
  {
    hide UsedSet, MarkGained, MarksKept, Elems, InoUsed;
    GainedThen(d, f, h, e, geo, ino);
  }

  lemma ParentDone(d: Disk, f: Disk, h: Disk, e: Disk, files: FileMap, after: FileMap, dir: nat)
    requires ParentTally(d, f, files, after, dir, 0) && TallyMoves(f, h, dir, 1, 0) && SameInode(h, e, dir)
    ensures ParentTally(d, e, files, after, dir, 1)
  {
    hide TallyMoves, SameInode;
    TallyTrans(d, f, h, dir, 0, |after[dir]| - |files[dir]|, 1, 0);
    TallyStays(h, e, dir);
    TallyTrans(d, h, e, dir, 1, |after[dir]| - |files[dir]|, 0, 0);
  }

  /** Group `g` counts `n` more directories, and the others as many as before. */
  ghost predicate MoreDirs(dirs: seq<nat>, now: seq<nat>, g: nat, n: nat) {
    |now| == |dirs| && forall h: nat :: h < |dirs| ==> now[h] == if h == g then (dirs[h] + n) % U32_LIMIT else dirs[h]
  }

  /** mkdir in a directory: the name leads to a new directory that holds only itself and its parent. When
      it fails for lack of a block or of room for the name, the inode stays in use, and so does the
      block of the new directory, if there was one; no name leads to them. */
  method MakeDirectory(v: Device, dir: nat, name: seq<Byte>, ghost files: FileMap, ghost c: Catalog, ghost g: nat)
    returns (err: Option<FsErr>, ghost after: FileMap, ghost now: Catalog, ino: nat)
    requires v.Valid() && Represents(v.d, v.geo, v.csum, files, dir, c) && |name| < 256
    modifies v`d, v`log, v`dirs
    ensures v.Valid() && Represents(v.d, v.geo, v.csum, after, dir, now)
    ensures err == MkdirAnswer(old(v.d), v.geo, files, dir, c, name)
    ensures now == if err.None? then WithDir(c, name, ino) else c
    ensures err.None? ==> EmptyDir(v.d, after, ino, dir) && ino !in files
    ensures err.Some? && !Known(c, name) ==> NewFailed(old(v.d), v.d, v.geo, files, ViewOf(old(v.d), files, dir))
    ensures ParentTally(old(v.d), v.d, files, after, dir, if err.None? then 1 else 0)
    ensures err.None? ==>
              && TookDir(old(v.d), v.d, v.geo, files, after, dir, ino) && Spared(old(v.d), v.d, files, after, dir, ino)
              && ViewOf(v.d, after, dir) == ViewOf(old(v.d), files, dir)[name := Target(ino, FT_DIR)]
    ensures if err.None? then MoreDirs(old(v.dirs), v.dirs, InodeGroup(ino), 1) else v.dirs == old(v.dirs)
    ensures err.Some? && !Known(c, name) && !NoInodeLeft(old(v.d), v.geo) ==>
              Elems(Head(FreeList(UsedSet(old(v.d), v.geo), v.geo.total))) <= UsedSet(v.d, v.geo)
    ensures ShieldHolds(old(v.d), v.d, files, after, dir, g, BlocksOf(old(v.log)), BlocksOf(v.log))
  {
    hide DirState, ViewOf, Spared, FileIs, Represents, Overwrite, BlocksOf, UsedSet, Avoids, Kept, Clear, FsOk,
         EmptyDir, OthersKept, ShieldHolds, NoNewTargets, WithDir, Bumped, SameBut, InodeGroup, IsTarget, FreeList,
         NoInodeLeft, RoomIn, GrowOutcome, NeedFor, Head, Elems, OldBlocks, NewFailed, ParentTally, TallyMoves,
         Counts, MarkGained, MarksKept;
    ghost var d, l0 := v.d, BlocksOf(v.log);
    Sound(d, v.geo, v.csum, files, dir, c);
    ContentsOf(d, v.geo, v.csum, files, dir, c, name);
    ino := 0;
    var t := Find(v, dir, name, files);
    if t.Ok? {
      ShieldSame(d, files, dir, g, l0);
      ParentSame(d, v.geo, v.csum, files, dir);
      return Some(Exists), files, c, ino;
    }
    err, after, ino := AddDirectory(v, dir, name, files, c, g);
    ghost var f, l1 := v.d, BlocksOf(v.log);
    if err.Some? {
      NothingShown(d, f, v.geo, v.csum, files, after, dir, ino, c);
      SameTargets(ViewOf(d, files, dir), files);
      ShieldBy(d, f, files, after, dir, ino, g, l0, l1);
      return err, after, c, ino;
    }
    err := AddLink(v, dir, after);
    ghost var h, l2 := v.d, BlocksOf(v.log);
    EmptyStays(f, h, after, after, dir, ino, dir);
    SparedMore(f, h, after, after, dir, ino);
    SparedTrans(d, f, h, files, after, after, dir, ino);
    SameButSame(after, dir);
    ClearBy(after, after, dir, ino, g, l1, l2, dir);
    ClearTrans(files, after, after, dir, ino, g, l0, l1, l2);
    StateFs(h, v.geo, v.csum, after, dir);
    OneMoreDir(v.dirs, InodeGroup(ino));
    BumpUsedDirs(v, InodeGroup(ino), 1, after);
    ghost var e := v.d;
    BumpShown(h, e, v.geo, v.csum, after, dir);
    TookStays(d, f, h, e, v.geo, files, after, dir, ino) by {
      SameMarks(h, e, v.geo, 0, Kept(after, 0));
    }
    ParentDone(d, f, h, e, files, after, dir) by {
      ParentApart(h, e, v.geo, v.csum, after, dir, 0);
    }
    EmptyStays(h, e, after, after, dir, ino, dir);
    SparedMore(h, e, after, after, dir, ino);
    SparedTrans(d, h, e, files, after, after, dir, ino);
    DescAvoids(h, v.geo, v.csum, after, dir, l2);
    ClearBy(after, after, dir, ino, g, l2, BlocksOf(v.log), dir);
    ClearTrans(files, after, after, dir, ino, g, l0, l2, BlocksOf(v.log));
    OtherShown(d, e, v.geo, v.csum, files, after, dir, ino, c, name);
    MoreTargets(ViewOf(d, files, dir), files, name, Target(ino, FT_DIR));
    ShieldBy(d, e, files, after, dir, ino, g, l0, BlocksOf(v.log));
    now := WithDir(c, name, ino);
  }

  // ---- phases 7 and 8 of mkfs ----

  const ETC: seq<Byte> := [0x65, 0x74, 0x63]
  const ROOT: seq<Byte> := [0x72, 0x6F, 0x6F, 0x74]
  const HOME: seq<Byte> := [0x68, 0x6F, 0x6D, 0x65]
  const USR: seq<Byte> := [0x75, 0x73, 0x72]
  const BOOT: seq<Byte> := [0x62, 0x6F, 0x6F, 0x74]
  const TMP: seq<Byte> := [0x74, 0x6D, 0x70]

  function DirEntry(name: seq<Byte>, ino: nat): DirEnt { DirEnt(name, Target(ino, FT_DIR)) }

  /** The records of the root directory. */
  function SeedEntries(inos: seq<nat>): seq<DirEnt>
    requires |inos| == 6
  {
    [DirEntry(ETC, inos[0]), DirEntry(ROOT, inos[1]), DirEntry(HOME, inos[2]), DirEntry(USR, inos[3]), DirEntry(BOOT,
        inos[4]),
     DirEntry(TMP, inos[5])]
  }

  predicate AreInos(inos: seq<nat>) { forall i :: 0 <= i < |inos| ==> 0 < inos[i] < U32_LIMIT }

  predicate ShortNames(es: seq<DirEnt>) {
    forall i :: 0 <= i < |es| ==> |es[i].name| <= 4 && 0 < es[i].target.ino < U32_LIMIT
  }

  lemma {:induction false} ShortFit(es: seq<DirEnt>, o: nat)
    requires ShortNames(es) && o + 12 * |es| <= 4096
    ensures Fits(es, o)
    decreases |es|
  {
    if es != [] {
      assert Align4(8 + |es[0].name|) <= 12;
      ShortFit(es[1..], o + Align4(8 + |es[0].name|));
    }
  }

  lemma SeedsFit(inos: seq<nat>)
    requires |inos| == 6 && AreInos(inos)
    ensures Fits(SeedEntries(inos), 0) && DistinctNames(SeedEntries(inos)) && AllDirs(SeedEntries(inos))
  {
    ShortFit(SeedEntries(inos), 0);
  }

  ghost predicate AllDirs(es: seq<DirEnt>) {
    forall i :: 0 <= i < |es| ==> es[i].target.ftype == FT_DIR
  }

  lemma {:induction false} DirsOnly(es: seq<DirEnt>, name: seq<Byte>)
    requires AllDirs(es) && name in AsMap(es)
    ensures AsMap(es)[name].ftype == FT_DIR
  {
    if es[0].name != name {
      DirsOnly(es[1..], name);
    }
  }

  /** Six directories and no file. */
  function RootCatalog(inos: seq<nat>): Catalog
    requires |inos| == 6
  {
    Catalog(map[], AsMap(SeedEntries(inos)))
  }

  /** The root directory shows exactly the six names. */
  lemma RootShown(d: Disk, geo: Geometry, csum: bool, files: FileMap, blk: nat, inos: seq<nat>)
    requires FsOk(d, geo, csum, files) && ROOT_INO in files && files[ROOT_INO] == [blk]
      && IsDirectory(d, ROOT_INO, [blk])
    requires |inos| == 6 && AreInos(inos) && Fits(SeedEntries(inos), 0)
    requires blk < |d| && d[blk] == Packed(ZERO_BLOCK, SeedEntries(inos), 0)
    ensures Represents(d, geo, csum, files, ROOT_INO, RootCatalog(inos))
  {
    hide FsOk, Packed, InodeAt, InodeBlock, BlockOk, Live, IsDirectory, SeedEntries, DirOk, DirectoryOps.Entries,
         AsMap, Fits, FileIs;
    var es := SeedEntries(inos);
    SeedsFit(inos);
    SixEntries(inos);
    PackedLive(es);
    OneBlockDir(d, blk);
    var view := ViewOf(d, files, ROOT_INO);
    assert view == AsMap(es);
    forall name | name in view
      ensures !IsFile(view, name)
    {
      DirsOnly(es, name);
    }
  }

  lemma SixEntries(inos: seq<nat>)
    requires |inos| == 6
    ensures |SeedEntries(inos)| == 6
  {
  }

  /** A volume as mkfs leaves it, with `i` inodes and `k` blocks more in use, lowest first. */
  ghost predicate Seeded(d: Disk, geo: Geometry, i: nat, k: nat) {
    FreshInos(d, geo, i) && FreshBlocks(d, geo, RING_BLOCKS + k)
  }

  lemma DirectoryTaken(d: Disk, e: Disk, geo: Geometry, ino: nat, keep: set<nat>, i: nat, k: nat)
    requires ValidGeo(geo) && Seeded(d, geo, i, k) && k <= 6 && OthersKept(d, e, geo, ino, keep)
    requires RING_AT + RING_BLOCKS + k < GroupBlocks(geo, 0)
      && UsedSet(e, geo) == UsedSet(d, geo) + Elems(Head(FreeList(UsedSet(d, geo), geo.total)))
    ensures Seeded(e, geo, i, k + 1)
  {
    hide FreshInos, FreshBlocks, GroupBlocks, ValidGeo, UsedSet, FreeList;
    NextBlock(d, geo, k);
    JustThis(RING_AT + RING_BLOCKS + k);
    OneMoreBlock(d, e, geo, RING_BLOCKS + k);
    FreshInosStay(d, e, geo, i);
  }

  lemma StillSeeded(d: Disk, e: Disk, geo: Geometry, keep: set<nat>, i: nat, k: nat)
    requires Seeded(d, geo, i, k) && OthersKept(d, e, geo, 0, keep) && UsedSet(e, geo) == UsedSet(d, geo)
    ensures Seeded(e, geo, i, k)
  {
    hide FreshInos, FreshBlocks, UsedSet;
    SameBlocks(d, e, geo, RING_BLOCKS + k);
    FreshInosStay(d, e, geo, i);
  }

  /** What mkfs needs in the first group: metadata, journal, seven directories. */
  predicate RoomForRoot(geo: Geometry) { RING_AT + RING_BLOCKS + 7 <= GroupBlocks(geo, 0) }

  /** A block is left for the next directory exactly if the first group goes beyond the ones in use,
      and it is the one behind them. */
  lemma NextBlock(d: Disk, geo: Geometry, k: nat)
    requires ValidGeo(geo) && FreshBlocks(d, geo, RING_BLOCKS + k)
      && k <= 7 && RING_AT + RING_BLOCKS + k <= GroupBlocks(geo, 0)
    ensures var f := FreeList(UsedSet(d, geo), geo.total);
      && (f != [] <==> RING_AT + RING_BLOCKS + k < GroupBlocks(geo, 0))
      && (f != [] ==> f[0] == RING_AT + RING_BLOCKS + k)
  {
    hide Used;
    var n, used := RING_AT + RING_BLOCKS + k, UsedSet(d, geo);
    FreeFromOrder(used, 0, geo.total);
    if n < GroupBlocks(geo, 0) {
      assert n !in used;
      FreeFromHas(used, 0, geo.total, n);
    }
    var f := FreeList(used, geo.total);
    if f != [] {
      assert !Used(d, f[0]);
    }
  }

  lemma OneMoreBlock(d: Disk, e: Disk, geo: Geometry, k: nat)
    requires FreshBlocks(d, geo, k) && UsedSet(e, geo) == UsedSet(d, geo) + {RING_AT + k}
    ensures FreshBlocks(e, geo, k + 1)
  {
    hide Used, IsMeta;
    forall x: nat | x < geo.total
      ensures Used(e, x) <==> IsMeta(x) || RING_AT <= x < RING_AT + k + 1
    {
      assert x in UsedSet(e, geo) <==> Used(e, x);
      assert x in UsedSet(d, geo) <==> Used(d, x);
    }
  }

  lemma SameBlocks(d: Disk, e: Disk, geo: Geometry, k: nat)
    requires FreshBlocks(d, geo, k) && UsedSet(e, geo) == UsedSet(d, geo)
    ensures FreshBlocks(e, geo, k)
  {
    hide Used, IsMeta;
    forall x: nat | x < geo.total
      ensures Used(e, x) <==> IsMeta(x) || RING_AT <= x < RING_AT + k
    {
      assert x in UsedSet(e, geo) <==> Used(e, x);
      assert x in UsedSet(d, geo) <==> Used(d, x);
    }
  }

  /** The inodes and the blocks of all files are as they were. */
  ghost predicate AllSame(d: Disk, e: Disk, files: FileMap) {
    |e| == |d| && forall j :: j in files ==> FileKept(d, e, files[j], j)
  }

  ghost predicate BlocksSame(d: Disk, e: Disk, p: seq<nat>) {
    forall x :: x in p ==> SameBlock(d, e, x)
  }

  lemma OthersSame(d: Disk, e: Disk, geo: Geometry, csum: bool, files: FileMap, ino: nat)
    requires FsOk(d, geo, csum, files) && OthersKept(d, e, geo, ino, Kept(files, ino)) && ino !in files
    ensures AllSame(d, e, files)
  {
    hide FsOk, SameMaps, SameInode, SameBlock, ValidGeo, Kept, FileKept;
    forall j | j in files
      ensures FileKept(d, e, files[j], j)
    {
      KeptFile(d, e, geo, csum, files, ino, j);
    }
  }

  lemma AllTrans(d: Disk, e: Disk, f: Disk, files: FileMap, after: FileMap)
    requires AllSame(d, e, files) && AllSame(e, f, after)
    requires forall j :: j in files ==> j in after && after[j] == files[j]
    ensures AllSame(d, f, files)
  {
    forall j | j in files
      ensures FileKept(d, f, files[j], j)
    {
      assert FileKept(d, e, files[j], j) && FileKept(e, f, after[j], j);
      assert forall x :: x in files[j] ==> SameBlock(d, e, x) && SameBlock(e, f, x);
    }
  }

  lemma AllRefl(d: Disk, geo: Geometry, csum: bool, files: FileMap)
    requires FsOk(d, geo, csum, files)
    ensures AllSame(d, d, files)
  {
    hide FsOk, FileKept;
    forall j | j in files
      ensures FileKept(d, d, files[j], j)
    {
      KeptSame(d, geo, csum, files, j);
    }
  }

  /** alloc_inode on a fresh volume: the next inode, and no block. */
  method TakeIno(v: Device, ghost files: FileMap, ghost k: nat) returns (r: Result<nat, FsErr>)
    requires v.Valid() && FsOk(v.d, v.geo, v.csum, files) && FreshInos(v.d, v.geo, k) && k <= 6
    modifies v`d, v`log
    ensures v.Valid() && FsOk(v.d, v.geo, v.csum, files) && FreshInos(v.d, v.geo, k + 1)
    ensures r == Ok(11 + k) && IsIno(v.geo, 11 + k) && InoUsed(v.d, 11 + k) && 11 + k !in files
    ensures UsedSet(v.d, v.geo) == UsedSet(old(v.d), v.geo) && AllSame(old(v.d), v.d, files)
  {
    hide FsOk, Accounting, Remarked, Remarkable, Marked, NoInodeLeft, Overwrite, BlocksOf, IsIno, InodeMapBlock,
         InodeGroup, IsLowestInode, FreshInos, UsedSet, AllSame;
    ghost var d := v.d;
    FsParts(d, v.geo, v.csum, files);
    r := AllocInode(v);
    InodeLeft(d, v.geo, k);
    if r.Ok? {
      TakenIno(d, v.geo, v.csum, files, r.value, k);
    }
  }

  lemma InodeLeft(d: Disk, geo: Geometry, k: nat)
    requires ValidGeo(geo) && FreshInos(d, geo, k) && k <= 6
    ensures !NoInodeLeft(d, geo)
    ensures forall ino :: IsLowestInode(d, geo, ino) ==> ino == 11 + k
  {
    hide Marked;
    assert IsIno(geo, 11 + k);
  }

  lemma TakenIno(d: Disk, geo: Geometry, csum: bool, files: FileMap, ino: nat, k: nat)
    requires FsOk(d, geo, csum, files) && IsLowestInode(d, geo, ino) && Remarkable(d, ino)
    requires FreshInos(d, geo, k) && ino == 11 + k
    ensures var e := Remarked(d, ino, true, csum);
      && IsIno(geo, ino) && ino !in files && FsOk(e, geo, csum, files) && InoUsed(e, ino)
      && FreshInos(e, geo, k + 1) && UsedSet(e, geo) == UsedSet(d, geo) && AllSame(d, e, files)
  {
    hide FsOk, Remarked, Remarkable, Marked, InodeBlock, SameInode, UsedSet;
    FsParts(d, geo, csum, files);
    FreeIsNobodys(d, geo, csum, files, ino);
    RemarkedFs(d, geo, csum, files, ino, true);
    RemarkedSet(d, geo, ino, true, csum);
    forall j: nat | IsIno(geo, j)
      ensures Marked(Remarked(d, ino, true, csum), j) <==> j < 11 + k + 1
    {
      InoIs(geo, j);
      RemarkedMarks(d, ino, true, csum, j);
    }
  }

  lemma EmptyIn(d: Disk, e: Disk, files: FileMap, after: FileMap, ino: nat)
    requires EmptyDir(d, files, ino, ROOT_INO) && AllSame(d, e, files) && ino in after && after[ino] == files[ino]
    ensures EmptyDir(e, after, ino, ROOT_INO)
  {
    hide FileKept, DirOk, DirectoryOps.Entries, DotEntries, IsDirectory, Tallied;
    EmptyKept(d, e, files, after, ino, ROOT_INO);
  }

  /** The first `k` of the six are empty directories below the root. */
  ghost predicate SeedsEmpty(d: Disk, files: FileMap, k: nat) {
    forall ino: nat :: 11 <= ino < 11 + k ==> EmptyDir(d, files, ino, ROOT_INO)
  }

  lemma SeedsStay(d: Disk, e: Disk, files: FileMap, after: FileMap, k: nat)
    requires SeedsEmpty(d, files, k) && AllSame(d, e, files)
    requires forall j :: j in files ==> j in after && after[j] == files[j]
    ensures SeedsEmpty(e, after, k)
  {
    hide AllSame, DirOk, DirectoryOps.Entries, DotEntries, IsDirectory, Tallied;
    forall ino: nat | 11 <= ino < 11 + k
      ensures EmptyDir(e, after, ino, ROOT_INO)
    {
      assert EmptyDir(d, files, ino, ROOT_INO);
      EmptyIn(d, e, files, after, ino);
    }
  }

  /** One of the six: inode, block, record, counter. */
  method SeedDir(v: Device, ghost files: FileMap, ghost k: nat) returns (r: Result<nat, FsErr>, ghost after: FileMap)
    requires v.Valid() && FsOk(v.d, v.geo, v.csum, files) && Seeded(v.d, v.geo, k, k)
    requires k < 6 && RING_AT + RING_BLOCKS + k <= GroupBlocks(v.geo, 0)
    modifies v`d, v`log, v`dirs
    ensures v.Valid() && (r.Ok? <==> RING_AT + RING_BLOCKS + k < GroupBlocks(v.geo, 0))
    ensures r.Ok? ==> r.value == 11 + k && FsOk(v.d, v.geo, v.csum, after) && Seeded(v.d, v.geo, k + 1, k + 1)
    ensures r.Ok? ==> 11 + k !in files && exists blk: nat :: after == files[11 + k := [blk]]
    ensures r.Ok? ==> AllSame(old(v.d), v.d, files) && EmptyDir(v.d, after, 11 + k, ROOT_INO)
    ensures r.Ok? ==> MoreDirs(old(v.dirs), v.dirs, 0, 1)
    ensures r.Err? ==> r.error == NoSpace && after == files
  {
    hide FsOk, InoUsed, Overwrite, BlocksOf, UsedSet, Elems, FreeList, Avoids, Kept, DotEntries, Packed, Fits, Head,
         IsDirectory, OthersKept, Bumped, IsIno, FreshInos, FreshBlocks, GroupBlocks, ValidGeo, AllSame, EmptyDir,
         Tallied, Counts;
    after := files;
    GeoOf(v.d, v.geo, v.csum, files);
    ghost var d := v.d;
    var got := TakeIno(v, files, k);
    ghost var m := v.d;
    SameBlocks(d, m, v.geo, RING_BLOCKS + k);
    NextBlock(m, v.geo, k);
    if got.Err? {
      return Err(NoSpace), files;
    }
    var ino := got.value;
    DotsFit(ino, ROOT_INO);
    TwoDots(ino, ROOT_INO);
    var b := PackEntries(DotEntries(ino, ROOT_INO));
    var made := NewDirectory(v, ino, b, 2, files);
    if made.Err? {
      return Err(NoSpace), files;
    }
    after := files[ino := [made.value]];
    ghost var n := v.d;
    EmptyMade(n, after, ino, ROOT_INO, made.value);
    DirectoryTaken(m, n, v.geo, ino, Kept(files, ino), k + 1, k);
    RootIsIno(n, v.geo, v.csum, after);
    OneMoreDir(v.dirs, 0);
    BumpUsedDirs(v, 0, 1, after);
    StillSeeded(n, v.d, v.geo, Kept(after, 0), k + 1, k + 1);
    OthersSame(m, n, v.geo, v.csum, files, ino);
    OthersSame(n, v.d, v.geo, v.csum, after, 0);
    AllTrans(m, n, v.d, files, after);
    AllTrans(d, m, v.d, files, files);
    EmptyIn(n, v.d, after, after, ino);
    return Ok(ino), after;
  }

  lemma GeoOf(d: Disk, geo: Geometry, csum: bool, files: FileMap)
    requires FsOk(d, geo, csum, files)
    ensures ValidGeo(geo)
  {
    FsParts(d, geo, csum, files);
  }

  lemma RootIsIno(d: Disk, geo: Geometry, csum: bool, files: FileMap)
    requires FsOk(d, geo, csum, files)
    ensures IsIno(geo, ROOT_INO) && 0 < geo.groups
  {
    FsParts(d, geo, csum, files);
    hide FsOk;
    LowInodes(geo);
  }

  lemma NoSeeds(d: Disk, files: FileMap)
    ensures SeedsEmpty(d, files, 0)
  {
  }

  lemma OneDirMore(dirs: seq<nat>, now: seq<nat>, geo: Geometry, k: nat)
    requires DirsOf(dirs, geo, k) && MoreDirs(dirs, now, 0, 1) && k < 100
    ensures DirsOf(now, geo, k + 1)
  {
  }

  lemma OneMoreDir(dirs: seq<nat>, g: nat)
    ensures MoreDirs(dirs, DirsMoved(dirs, g, 1), g, 1)
  {
  }

  lemma OneMoreSeed(d: Disk, files: FileMap, k: nat)
    requires SeedsEmpty(d, files, k) && EmptyDir(d, files, 11 + k, ROOT_INO)
    ensures SeedsEmpty(d, files, k + 1)
  {
    hide EmptyDir;
  }

  lemma RootTally(d: Disk, e: Disk, files: FileMap)
    requires AllSame(d, e, files) && ROOT_INO in files && Tallied(d, ROOT_INO, 8, files[ROOT_INO])
    ensures Tallied(e, ROOT_INO, 8, files[ROOT_INO])
  {
    hide InodeAt, InodeBlock;
    InodeKept(d, e, files, ROOT_INO);
  }

  /** Phases 7 and 8 of mkfs_at: the six directories, then the root directory in inode 2. It
      succeeds exactly if the first group has room for them. */
  method MakeRoot(v: Device, ghost files: FileMap) returns (err: Option<FsErr>, inos: seq<nat>, ghost after: FileMap)
    requires v.Valid() && FsOk(v.d, v.geo, v.csum, files) && Seeded(v.d, v.geo, 0, 0) && ROOT_INO !in files
      && DirsOf(v.dirs, v.geo, 0)
    requires RING_AT + RING_BLOCKS <= GroupBlocks(v.geo, 0)
    modifies v`d, v`log, v`dirs
    ensures v.Valid() && err == if RoomForRoot(v.geo) then None else Some(NoSpace)
    ensures forall j :: j in files ==> j in after && after[j] == files[j]
    ensures err.None? ==> inos == SeedInos() && Represents(v.d, v.geo, v.csum, after, ROOT_INO, RootCatalog(inos))
    ensures err.None? ==> Seeded(v.d, v.geo, 6, 7) && AllSame(old(v.d), v.d, files)
    ensures err.None? ==> ROOT_INO in after && |after[ROOT_INO]| == 1 && Tallied(v.d, ROOT_INO, 8, after[ROOT_INO])
    ensures err.None? ==> SeedsEmpty(v.d, after, 6) && DirsOf(v.dirs, v.geo, 7)
  {
    hide FsOk, InoUsed, Overwrite, BlocksOf, UsedSet, Elems, FreeList, Avoids, Kept, Head, SeedEntries, Packed, Fits,
         IsDirectory, OthersKept, Bumped, IsIno, RootCatalog, Represents, Seeded, GroupBlocks, ValidGeo, AllSame,
         SeedsEmpty, Tallied, EmptyDir, Counts, MoreDirs,
         DirsOf;
    inos, after := [], files;
    GeoOf(v.d, v.geo, v.csum, files);
    ghost var d0 := v.d;
    AllRefl(d0, v.geo, v.csum, files);
    NoSeeds(d0, files);
    for k := 0 to 6
      invariant v.Valid() && FsOk(v.d, v.geo, v.csum, after) && Seeded(v.d, v.geo, k, k)
      invariant RING_AT + RING_BLOCKS + k <= GroupBlocks(v.geo, 0)
      invariant inos == SeedInos()[..k] && ROOT_INO !in after
      invariant AllSame(d0, v.d, files) && forall j :: j in files ==> j in after && after[j] == files[j]
      invariant SeedsEmpty(v.d, after, k) && DirsOf(v.dirs, v.geo, k)
    {
      var r;
      ghost var d, was, dirs := v.d, after, v.dirs;
      r, after := SeedDir(v, after, k);
      if r.Err? {
        return Some(NoSpace), inos, after;
      }
      AllTrans(d0, d, v.d, files, was);
      SeedsStay(d, v.d, was, after, k);
      OneMoreSeed(v.d, after, k);
      OneDirMore(dirs, v.dirs, v.geo, k);
      inos := inos + [r.value];
    }
    SeedsFit(inos);
    SixEntries(inos);
    RootIsIno(v.d, v.geo, v.csum, after);
    SeededFacts(v.d, v.geo);
    var b := PackEntries(SeedEntries(inos));
    ghost var m := v.d;
    var made := NewDirectory(v, ROOT_INO, b, 8, after);
    if made.Err? {
      return Some(NoSpace), inos, after;
    }
    ghost var n := v.d;
    DirectoryTaken(m, n, v.geo, ROOT_INO, Kept(after, ROOT_INO), 6, 6);
    OthersSame(m, n, v.geo, v.csum, after, ROOT_INO);
    AllTrans(d0, m, n, files, after);
    ghost var six := after;
    after := after[ROOT_INO := [made.value]];
    SeedsStay(m, n, six, after, 6);
    RootShown(n, v.geo, v.csum, after, made.value, inos);
    ghost var dirs6 := v.dirs;
    BumpUsedDirs(v, 0, 1, after);
    OneMoreDir(dirs6, 0);
    OneDirMore(dirs6, v.dirs, v.geo, 6);
    StillSeeded(n, v.d, v.geo, Kept(after, 0), 6, 7);
    BumpedRoot(n, v.d, v.geo, v.csum, after, RootCatalog(inos));
    OthersSame(n, v.d, v.geo, v.csum, after, 0);
    AllTrans(d0, n, v.d, files, after);
    SeedsStay(n, v.d, after, after, 6);
    RootTally(n, v.d, after);
    return None, inos, after;
  }

  function SeedInos(): seq<nat> { [11, 12, 13, 14, 15, 16] }

  lemma {:induction false} EntryLeads(es: seq<DirEnt>, i: nat)
    requires i < |es| && DistinctNames(es)
    ensures es[i].name in AsMap(es) && AsMap(es)[es[i].name] == es[i].target
  {
    if i > 0 {
      EntryLeads(es[1..], i - 1);
    }
  }

  /** The inodes the six names lead to. */
  lemma SixTargets()
    ensures var others := RootCatalog(SeedInos()).others;
      && LeadsTo(others, ETC, 11) && LeadsTo(others, ROOT, 12) && LeadsTo(others, HOME, 13)
      && LeadsTo(others, USR, 14) && LeadsTo(others, BOOT, 15) && LeadsTo(others, TMP, 16)
  {
    hide AsMap;
    var es := SeedEntries(SeedInos());
    SeedsFit(SeedInos());
    EntryLeads(es, 0);
    EntryLeads(es, 1);
    EntryLeads(es, 2);
    EntryLeads(es, 3);
    EntryLeads(es, 4);
    EntryLeads(es, 5);
  }

  predicate LeadsTo(m: DirMap, name: seq<Byte>, ino: nat) { name in m && m[name] == Target(ino, FT_DIR) }

  /** There are no other names. */
  lemma SixNames(name: seq<Byte>)
    ensures RootCatalog(SeedInos()).files == map[]
    ensures name in RootCatalog(SeedInos()).others <==> name in [ETC, ROOT, HOME, USR, BOOT, TMP]
  {
    hide AsMap;
    var es := SeedEntries(SeedInos());
    AsMapKeys(es, name);
    assert es[0].name == ETC && es[1].name == ROOT && es[2].name == HOME;
    assert es[3].name == USR && es[4].name == BOOT && es[5].name == TMP;
  }

  /** Before the root directory. */
  lemma SeededFacts(d: Disk, geo: Geometry)
    requires ValidGeo(geo) && Seeded(d, geo, 6, 6) && RING_AT + RING_BLOCKS + 6 <= GroupBlocks(geo, 0)
    ensures InoUsed(d, ROOT_INO) && (FreeList(UsedSet(d, geo), geo.total) != [] <==> RoomForRoot(geo))
  {
    hide FreshInos, FreshBlocks, GroupBlocks, ValidGeo, UsedSet, FreeList, InoUsed;
    FreshInosUsed(d, geo, 6);
    NextBlock(d, geo, 6);
  }

  lemma BumpedRoot(d: Disk, e: Disk, geo: Geometry, csum: bool, files: FileMap, c: Catalog)
    requires Represents(d, geo, csum, files, ROOT_INO, c)
    requires FsOk(e, geo, csum, files) && OthersKept(d, e, geo, 0, Kept(files, 0)) && 0 !in files
    ensures Represents(e, geo, csum, files, ROOT_INO, c)
  {
    hide *;
    Sound(d, geo, csum, files, ROOT_INO, c);
    BumpShown(d, e, geo, csum, files, ROOT_INO);
    NothingShown(d, e, geo, csum, files, files, ROOT_INO, ROOT_INO, c);
  }

  /** What mkfs_at answers, from the size of the device alone. */
  function FormatAnswer(geo: Geometry): Option<FsErr>
    requires geo.groups >= 1
  {
    if geo.total < 8192 then Some(NoSpace)
    else if geo.groups > MAX_GROUPS then Some(Unsupported)
    else if geo.total < FirstBlock(geo.groups - 1) + META_BLOCKS then Some(Io)
    else None
  }

  lemma EnoughRoom(geo: Geometry)
    requires Covers(geo) && geo.groups <= MAX_DESCS && FormatAnswer(geo).None?
    ensures ValidGeo(geo) && RING_AT + RING_BLOCKS <= GroupBlocks(geo, 0) && RoomForRoot(geo)
  {
  }

  /** What the file system is after mkfs: the root directory shows exactly six empty directories, in
      the inodes and blocks right behind the reserved ones; the journal's blocks are those of inode 8,
      which no name leads to. */
  ghost predicate Formatted(d: Disk, geo: Geometry, csum: bool, files: FileMap, inos: seq<nat>) {
    && inos == SeedInos() && Represents(d, geo, csum, files, ROOT_INO, RootCatalog(inos)) && Seeded(d, geo, 6, 7)
    && Shielded(d, files, ROOT_INO, JOURNAL_INO) && files[JOURNAL_INO] == Consecutive(RING_AT, RING_BLOCKS)
    && ROOT_INO in files && |files[ROOT_INO]| == 1 && Tallied(d, ROOT_INO, 8, files[ROOT_INO])
    && SeedsEmpty(d, files, 6) && JournalInode(d)
  }

  /** The journal superblock is fresh; the ring behind it holds what it held before mkfs. */
  ghost predicate RingLeft(d: Disk, e: Disk) {
    && RING_AT + RING_BLOCKS <= |e| == |d| && e[RING_AT] == JournalSuper()
    && forall k: nat :: 1 <= k < RING_BLOCKS ==> SlotLeft(d, e, k)
  }

  predicate SlotLeft(d: Disk, e: Disk, k: nat) {
    RING_AT + k < |e| == |d| && e[RING_AT + k] == d[RING_AT + k]
  }

  lemma RingStays(d: Disk, e: Disk, f: Disk)
    requires OnlyMeta(d, e) && RingHeadOnly(e, f) && RING_AT + RING_BLOCKS <= |d|
    ensures RingLeft(d, f)
  {
    hide JournalSuper, Put;
    PartsBlock(0, RING_AT);
    PutAt(e, RING_AT, JournalSuper(), RING_AT);
    forall k: nat | 1 <= k < RING_BLOCKS
      ensures SlotLeft(d, f, k)
    {
      PartsBlock(0, RING_AT + k);
      PutAt(e, RING_AT, JournalSuper(), RING_AT + k);
    }
  }

  lemma RingStill(d: Disk, e: Disk, f: Disk, p: seq<nat>)
    requires RingLeft(d, e) && |f| == |e| && BlocksSame(e, f, p) && p == Consecutive(RING_AT, RING_BLOCKS)
    ensures RingLeft(d, f)
  {
    hide JournalSuper;
    assert p[0] == RING_AT;
    assert SameBlock(e, f, RING_AT);
    forall k: nat | 1 <= k < RING_BLOCKS
      ensures SlotLeft(d, f, k)
    {
      assert p[k] == RING_AT + k;
      assert SlotLeft(d, e, k) && SameBlock(e, f, RING_AT + k);
    }
  }

  /** A whole mkfs_at on a device of `geo.total` blocks. It is refused for a device below 8192 blocks
      and above 1024 groups without a write, and after some zeroing for a last group that cannot hold
      its metadata. Else every run of commands on the root directory can start from what it leaves. */
  method FormatVolume(v: Device) returns (err: Option<FsErr>, inos: seq<nat>, ghost files: FileMap)
    requires v.Valid() && v.making && Told(v.geo) && v.geo.total == |v.d|
      && (v.geo.groups <= MAX_DESCS || v.geo.groups > MAX_GROUPS)
    modifies v`d, v`log, v`dirs
    ensures v.Valid() && err == FormatAnswer(v.geo)
    ensures err == Some(NoSpace) <==> v.geo.total < 8192
    ensures err == Some(Unsupported) <==> v.geo.total > 1024 * BPG
    ensures err == Some(Io) <==> 8192 <= v.geo.total <= 1024 * BPG && 0 < v.geo.total % BPG < META_BLOCKS
    ensures err == Some(NoSpace) || err == Some(Unsupported) ==> v.d == old(v.d) && v.log == old(v.log)
    ensures err == Some(Io) ==> OnlyMeta(old(v.d), v.d)
    ensures err.None? ==> Formatted(v.d, v.geo, v.csum, files, inos) && RingLeft(old(v.d), v.d)
    ensures err.None? ==> DirsOf(v.dirs, v.geo, 7)
  {
    hide FsOk, InoUsed, Overwrite, RootCatalog, Represents, ValidGeo, GroupBlocks, Consecutive, FreshInos, FreshBlocks,
         RoomForRoot, RingHeadOnly, OnlyMeta, RingLeft, Shielded, AllSame, DirsOf, Counts,
         JournalInode;
    inos, files := [], map[];
    if v.geo.total < 8192 {
      return Some(NoSpace), inos, files;
    }
    if v.geo.groups > MAX_GROUPS {
      return Some(Unsupported), inos, files;
    }
    ghost var d0 := v.d;
    v.dirs := [];
    var ok := ZeroMeta(v);
    if !ok {
      return Some(Io), inos, files;
    }
    EnoughRoom(v.geo);
    ghost var d1 := v.d;
    var jblk := MakeFs(v);
    ghost var d2 := v.d;
    RingStays(d0, d1, d2);
    ghost var journal: FileMap := map[JOURNAL_INO := Consecutive(jblk, RING_BLOCKS)];
    err, inos, files := MakeRoot(v, journal);
    NoFileShields(v.d, v.geo, v.csum, files, inos);
    AllAt(d2, v.d, journal, JOURNAL_INO);
    RingStill(d0, d2, v.d, journal[JOURNAL_INO]);
    if err.None? {
      JournalStays(d2, v.d, journal);
    }
  }

  lemma JournalStays(d: Disk, e: Disk, files: FileMap)
    requires AllSame(d, e, files) && JOURNAL_INO in files && JournalInode(d)
    ensures JournalInode(e)
  {
    hide InodeAt, InodeBlock, Size, Mode;
    InodeKept(d, e, files, JOURNAL_INO);
  }

  lemma AllAt(d: Disk, e: Disk, files: FileMap, j: nat)
    requires AllSame(d, e, files) && j in files
    ensures |e| == |d| && BlocksSame(d, e, files[j])
  {
  }

  lemma NoFileShields(d: Disk, geo: Geometry, csum: bool, files: FileMap, inos: seq<nat>)
    requires |inos| == 6 && Represents(d, geo, csum, files, ROOT_INO, RootCatalog(inos)) && JOURNAL_INO in files
    ensures Shielded(d, files, ROOT_INO, JOURNAL_INO)
  {
    hide DirState, ViewOf, FileIs, SeedEntries, AsMap;
  }
}
