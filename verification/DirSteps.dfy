/** The steps the commands on a directory are made of, each seen from the directory: what it does to
    the names, to the files, to the free blocks, and which blocks it leaves alone. */
module DirSteps {
  import opened Bytes
  import opened Collections
  import opened Wrappers
  import opened Disk
  import Bitmap
  import Extents
  import opened Volume
  import opened Inodes
  import opened InodeAlloc
  import opened Files
  import opened FileSystem
  import opened FreeSpace
  import opened FileWrite
  import opened Directory
  import opened DirectoryOps
  import opened DirCatalog

  /** All entries of the file map but one stay. */
  ghost predicate SameBut(files: FileMap, after: FileMap, x: nat) {
    forall j :: j in files && j != x ==> j in after && after[j] == files[j]
  }

  lemma StateIno(d: Disk, geo: Geometry, csum: bool, files: FileMap, dir: nat)
    requires DirState(d, geo, csum, files, dir)
    ensures FsOk(d, geo, csum, files) && dir in files && OldBlocks(files, dir) == files[dir]
    ensures InodeOk(d, geo, csum, dir, files[dir]) && DirOk(d, files[dir])
    ensures Accounting(d, geo) && IsDirectory(d, dir, files[dir]) && Mode(InodeAt(d, dir)) / 0x4000 % 2 == 1
  {
    StateFacts(d, geo, csum, files, dir);
  }

  /** Looking a name up in a sound directory. */
  method Find(v: Device, dir: nat, name: seq<Byte>, ghost files: FileMap) returns (r: Result<Target, FsErr>)
    requires DirState(v.d, v.geo, v.csum, files, dir)
    ensures var view := ViewOf(v.d, files, dir);
            r == if name in view then Ok(view[name]) else Err(NotFound)
  {
    hide DirState, FsOk, Accounting, InodeOk, DirOk, IsDirectory, DirView, InodeAt, InodeBlock, Mode;
    StateIno(v.d, v.geo, v.csum, files, dir);
    r := Lookup(v, dir, name, files[dir]);
  }

  // ---- contents ----

  /** A rewritten file, seen from the directory. */
  lemma RewrittenShown(d: Disk, e: Disk, geo: Geometry, csum: bool, files: FileMap, dir: nat, ino: nat, q: seq<nat>,
                       data: seq<Byte>)
    requires DirState(d, geo, csum, files, dir) && ino != dir && Rewritten(d, e, geo, csum, files, ino, q, data)
    ensures var after := files[ino := q];
      && DirState(e, geo, csum, after, dir) && ViewOf(e, after, dir) == ViewOf(d, files, dir)
      && Spared(d, e, files, after, dir, ino) && FileIs(e, after, dir, ino, data)
  {
    var after := files[ino := q];
    StateFs(d, geo, csum, files, dir);
    hide DirState, FsOk, OthersKept, Kept, ViewOf, FileHolds, Spared, Accounting;
    DirUntouched(d, e, geo, csum, files, after, dir, ino);
    SparedBy(d, e, geo, csum, files, after, dir, ino, ino);
  }

  /** Where the contents went: into the lowest blocks that were free once the old ones were released,
      or, with a fifth run, one of those blocks is in use and no file's. */
  ghost predicate Placed(d: Disk, e: Disk, geo: Geometry, files: FileMap, after: FileMap, ino: nat, n: nat,
                         err: Option<FsErr>) {
    var rest := UsedSet(d, geo) - Elems(OldBlocks(files, ino));
    var free := FreeList(rest, geo.total);
    && ino in after && after == files[ino := after[ino]]
    && match err
       case None => InLine(free, after[ino]) && |after[ino]| == n && UsedSet(e, geo) == rest + Elems(after[ino])
       case Some(Unsupported) => after[ino] == [] && exists x: nat :: x in free && UsedSet(e, geo) == rest + {x}
       case _ => after[ino] == [] && UsedSet(e, geo) == rest
  }

  lemma IsPlaced(d: Disk, e: Disk, geo: Geometry, files: FileMap, ino: nat, n: nat, err: Option<FsErr>, q: seq<nat>,
                 lost: seq<nat>, w: seq<nat>)
    requires var rest := UsedSet(d, geo) - Elems(OldBlocks(files, ino));
      InLine(FreeList(rest, geo.total), w) && UsedSet(e, geo) == rest + Elems(q) + Elems(lost)
    requires err.None? ==> |q| == n && lost == [] && w == q
    requires err.Some? ==> q == [] && Failure(err.value, lost) && Elems(lost) <= Elems(w)
    ensures Placed(d, e, geo, files, files[ino := q], ino, n, err)
  {
    hide FreeList, UsedSet, OldBlocks;
    var rest := UsedSet(d, geo) - Elems(OldBlocks(files, ino));
    var free := FreeList(rest, geo.total);
    assert rest + {} == rest;
    NoElems();
    if err == Some(Unsupported) {
      var x := lost[0];
      OneElem(x);
      assert lost == [x] && x in Elems(lost) && x in w && x in free;
      assert UsedSet(e, geo) == rest + {x};
    }
  }

  /** write_file from the point where the inode is known. */
  method Rewrite(v: Device, dir: nat, ino: nat, existing: bool, data: seq<Byte>, ghost files: FileMap)
    returns (err: Option<FsErr>, ghost after: FileMap)
    requires v.Valid() && DirState(v.d, v.geo, v.csum, files, dir) && IsIno(v.geo, ino) && ino != dir
      && InoUsed(v.d, ino)
    requires (existing <==> ino in files) && |data| < U32_LIMIT
    modifies v`d, v`log
    ensures v.Valid() && DirState(v.d, v.geo, v.csum, after, dir)
      && ViewOf(v.d, after, dir) == ViewOf(old(v.d), files, dir)
    ensures Spared(old(v.d), v.d, files, after, dir, ino)
      && FileIs(v.d, after, dir, ino, if err.None? then data else [])
    ensures err == Outcome(FreeList(UsedSet(old(v.d), v.geo) - Elems(OldBlocks(files, ino)), v.geo.total),
                           NumBlocks(|data|))
    ensures SameBut(files, after, ino) && Avoids(BlocksOf(old(v.log)), BlocksOf(v.log), Kept(files, ino))
    ensures Placed(old(v.d), v.d, v.geo, files, after, ino, NumBlocks(|data|), err)
    ensures Spent(BlocksOf(old(v.log)), BlocksOf(v.log), NumBlocks(|data|) + 1) && MarksKept(old(v.d), v.d, v.geo)
  {
    hide DirState, FsOk, ViewOf, FileIs, Spared, Rewritten, InoUsed, Overwrite, BlocksOf, Elems, UsedSet, IsIno,
         InodeBlock, OnlyWrote, Outcome, FreeList, OldBlocks, Kept, Avoids, OwnNew, Placed, InLine, Failure, Spent,
         MarksKept;
    ghost var d, log0 := v.d, BlocksOf(v.log);
    StateFs(d, v.geo, v.csum, files, dir);
    ghost var q, lost, w;
    err, q, lost, w := WriteData(v, ino, existing, data, files);
    after := files[ino := q];
    RewrittenShown(d, v.d, v.geo, v.csum, files, dir, ino, q, if err.None? then data else []);
    RewrittenMarks(d, v.d, v.geo, v.csum, files, ino, q, if err.None? then data else []);
    DataAvoids(d, v.geo, v.csum, files, ino, w, log0, BlocksOf(v.log));
    IsPlaced(d, v.d, v.geo, files, ino, NumBlocks(|data|), err, q, lost, w);
    InoPositive(v.geo, ino);
    SpentData(log0, BlocksOf(v.log), w, InodeBlock(ino), NumBlocks(|data|));
  }

  lemma RewrittenMarks(d: Disk, e: Disk, geo: Geometry, csum: bool, files: FileMap, ino: nat, q: seq<nat>,
                       data: seq<Byte>)
    requires Rewritten(d, e, geo, csum, files, ino, q, data)
    ensures MarksKept(d, e, geo)
  {
    hide FsOk, OthersKept, Kept, FileHolds, MarksKept;
    SameMarks(d, e, geo, ino, Kept(files, ino));
  }

  lemma SpentData(a: set<nat>, b: set<nat>, w: seq<nat>, x: nat, n: nat)
    requires OnlyWrote(a, b, Elems(w) + {x}) && |w| <= n
    ensures Spent(a, b, n + 1)
  {
    hide OnlyWrote;
    ElemsSize(w);
    SpentBy(a, b, Elems(w) + {x}, n + 1);
  }

  /** New blocks of one's own and the inode's block are no other file's. */
  lemma DataAvoids(d: Disk, geo: Geometry, csum: bool, files: FileMap, ino: nat, w: seq<nat>, a: set<nat>, b: set<nat>)
    requires FsOk(d, geo, csum, files) && IsIno(geo, ino) && OwnNew(geo, files, ino, w)
      && OnlyWrote(a, b, Elems(w) + {InodeBlock(ino)})
    ensures Avoids(a, b, Kept(files, ino))
  {
    FsParts(d, geo, csum, files);
    InoIs(geo, ino);
    KeptFacts(d, geo, csum, files, ino);
    hide *;
    OwnApart(geo, files, ino, w);
    OnlyWroteAvoids(a, b, Elems(w), InodeBlock(ino), geo, Kept(files, ino));
  }

  // ---- inodes ----

  /** alloc_inode. */
  method NewIno(v: Device, dir: nat, ghost files: FileMap) returns (r: Result<nat, FsErr>)
    requires v.Valid() && DirState(v.d, v.geo, v.csum, files, dir)
    modifies v`d, v`log
    ensures v.Valid() && DirState(v.d, v.geo, v.csum, files, dir)
      && ViewOf(v.d, files, dir) == ViewOf(old(v.d), files, dir)
    ensures dir in files && FileKept(old(v.d), v.d, files[dir], dir) && UsedSet(v.d, v.geo) == UsedSet(old(v.d), v.geo)
    ensures Avoids(BlocksOf(old(v.log)), BlocksOf(v.log), Kept(files, dir))
    ensures r.Ok? <==> !NoInodeLeft(old(v.d), v.geo)
    ensures r.Ok? ==>
              && IsIno(v.geo, r.value) && 0 < r.value < U32_LIMIT && InoUsed(v.d, r.value) && r.value !in files
                 && r.value != dir
              && Spared(old(v.d), v.d, files, files, dir, r.value)
    ensures r.Err? ==> r.error == NoSpace && v.d == old(v.d) && v.log == old(v.log)
    ensures r.Ok? ==> MarkGained(old(v.d), v.d, v.geo, r.value) && !InoUsed(old(v.d), r.value)
    ensures Spent(BlocksOf(old(v.log)), BlocksOf(v.log), 1)
  {
    hide DirState, FsOk, ViewOf, Spared, Accounting, Remarked, Remarkable, Marked, NoInodeLeft, Overwrite, BlocksOf,
         IsIno, FileKept, UsedSet, Avoids, Kept, InodeMapBlock, InodeGroup, IsLowestInode, MarkGained, Spent;
    ghost var d, log0 := v.d, BlocksOf(v.log);
    SpentSame(log0, 1);
    StateFs(d, v.geo, v.csum, files, dir);
    KeptSame(d, v.geo, v.csum, files, dir);
    AvoidsSame(log0, Kept(files, dir));
    r := AllocInode(v);
    if r.Ok? {
      SomeInodeLeft(d, v.geo, r.value);
      FreshIno(d, v.geo, v.csum, files, dir, r.value);
      MarkedMore(d, v.geo, v.csum, files, r.value);
      WasFree(d, v.geo, r.value);
      MapAvoids(d, v.geo, v.csum, files, dir, r.value, log0);
      SpentAcct(log0, log0, BlocksOf(v.log), InodeMapBlock(InodeGroup(r.value)));
    }
  }

  lemma WasFree(d: Disk, geo: Geometry, ino: nat)
    requires IsLowestInode(d, geo, ino)
    ensures !InoUsed(d, ino)
  {
    hide Marked;
  }

  /** An inode that was free came into use, but no file has it and no name of the directory leads to it. */
  ghost predicate InodeLost(d: Disk, e: Disk, geo: Geometry, files: FileMap, view: DirMap) {
    exists ino: nat :: LostOne(d, e, geo, files, view, ino)
  }

  ghost predicate LostOne(d: Disk, e: Disk, geo: Geometry, files: FileMap, view: DirMap, ino: nat) {
    && IsIno(geo, ino) && !InoUsed(d, ino) && MarkGained(d, e, geo, ino) && ino !in files
    && forall name :: IsFile(view, name) ==> view[name].ino != ino
  }

  /** One inode more is in use. */
  ghost predicate MarkGained(d: Disk, e: Disk, geo: Geometry, ino: nat) {
    forall j: nat :: IsIno(geo, j) ==> (InoUsed(e, j) <==> InoUsed(d, j) || j == ino)
  }

  lemma MarkedMore(d: Disk, geo: Geometry, csum: bool, files: FileMap, ino: nat)
    requires FsOk(d, geo, csum, files) && Remarkable(d, ino)
    ensures MarkGained(d, Remarked(d, ino, true, csum), geo, ino)
  {
    hide FsOk, Remarked, Remarkable, Marked, InodeGroup;
    forall j: nat | IsIno(geo, j)
      ensures InoUsed(Remarked(d, ino, true, csum), j) <==> InoUsed(d, j) || j == ino
    {
      RemarkedMarks(d, ino, true, csum, j);
    }
  }

  ghost predicate MarkLost(d: Disk, e: Disk, geo: Geometry, ino: nat) {
    forall j: nat :: IsIno(geo, j) ==> (InoUsed(e, j) <==> InoUsed(d, j) && j != ino)
  }

  lemma MarkedLess(d: Disk, e: Disk, geo: Geometry, ino: nat, csum: bool)
    requires MarksKept(d, e, geo) && Remarkable(e, ino)
    ensures MarkLost(d, Remarked(e, ino, false, csum), geo, ino)
  {
    hide Remarked, Remarkable, Marked, InodeGroup;
    forall j: nat | IsIno(geo, j)
      ensures InoUsed(Remarked(e, ino, false, csum), j) <==> InoUsed(d, j) && j != ino
    {
      RemarkedMarks(e, ino, false, csum, j);
    }
  }

  lemma KeptSame(d: Disk, geo: Geometry, csum: bool, files: FileMap, j: nat)
    requires FsOk(d, geo, csum, files) && j in files
    ensures FileKept(d, d, files[j], j)
  {
    FsFile(d, geo, csum, files, j);
    FsParts(d, geo, csum, files);
    hide FsOk, Accounting, MetaUsed, InodeAt, InodeBlock, IsIno;
    InoIs(geo, j);
    InBounds(d, geo, files[j]);
  }

  lemma SomeInodeLeft(d: Disk, geo: Geometry, ino: nat)
    requires IsLowestInode(d, geo, ino)
    ensures !NoInodeLeft(d, geo)
  {
    hide Marked, IsIno;
  }

  lemma FreshIno(d: Disk, geo: Geometry, csum: bool, files: FileMap, dir: nat, ino: nat)
    requires DirState(d, geo, csum, files, dir) && IsLowestInode(d, geo, ino) && Remarkable(d, ino)
    ensures var e := Remarked(d, ino, true, csum);
      && IsIno(geo, ino) && 0 < ino < U32_LIMIT && InoUsed(e, ino) && ino !in files && ino != dir
      && DirState(e, geo, csum, files, dir) && ViewOf(e, files, dir) == ViewOf(d, files, dir)
         && Spared(d, e, files, files, dir, ino)
      && dir in files && FileKept(d, e, files[dir], dir) && UsedSet(e, geo) == UsedSet(d, geo)
  {
    StateFs(d, geo, csum, files, dir);
    hide DirState, FsOk, ViewOf, Spared, Remarked, Remarkable, Marked, InodeBlock, FileKept, UsedSet;
    FsParts(d, geo, csum, files);
    InoIs(geo, ino);
    FreeIsNobodys(d, geo, csum, files, ino);
    RemarkedState(d, geo, csum, files, dir, ino, true);
    RemarkedFs(d, geo, csum, files, ino, true);
    RemarkedSet(d, geo, ino, true, csum);
    RemarkedMarks(d, ino, true, csum, ino);
  }

  /** What marking an inode writes is metadata. */
  lemma MapAvoids(d: Disk, geo: Geometry, csum: bool, files: FileMap, i: nat, ino: nat, a: set<nat>)
    requires FsOk(d, geo, csum, files) && ino >= 1
    ensures Avoids(a, a + {InodeMapBlock(InodeGroup(ino)), 1, 0}, Kept(files, i))
  {
    KeptFacts(d, geo, csum, files, i);
    MapPlace(InodeGroup(ino));
    hide FsOk, Kept, InodeMapBlock, InodeGroup;
    forall x: nat | x in Kept(files, i)
      ensures x > 1 && BitOf(x) >= 4
    {
      BeyondBoot(x);
    }
  }

  /** Saving a new inode makes it an empty file. */
  method SaveEmpty(v: Device, dir: nat, ino: nat, ghost files: FileMap) returns (ghost after: FileMap)
    requires v.Valid() && DirState(v.d, v.geo, v.csum, files, dir) && IsIno(v.geo, ino) && ino != dir && ino !in files
      && InoUsed(v.d, ino)
    modifies v`d, v`log
    ensures v.Valid() && DirState(v.d, v.geo, v.csum, after, dir)
      && ViewOf(v.d, after, dir) == ViewOf(old(v.d), files, dir)
    ensures Spared(old(v.d), v.d, files, after, dir, ino) && FileIs(v.d, after, dir, ino, [])
      && after.Keys == files.Keys + {ino}
    ensures SameBut(files, after, ino) && dir in files && FileKept(old(v.d), v.d, files[dir], dir)
    ensures UsedSet(v.d, v.geo) == UsedSet(old(v.d), v.geo)
      && Avoids(BlocksOf(old(v.log)), BlocksOf(v.log), Kept(files, ino))
    ensures InoUsed(v.d, ino) && MarksKept(old(v.d), v.d, v.geo) && after == files[ino := []]
    ensures Spent(BlocksOf(old(v.log)), BlocksOf(v.log), 1)
  {
    hide DirState, FsOk, ViewOf, FileIs, Spared, Rewritten, InoUsed, Overwrite, BlocksOf, Elems, UsedSet, IsIno,
         InodeBlock, Mid, RecordIs, Saved, NewInode, R16, Accounting, Kept, MetaUsed, Avoids, FileKept, OthersKept,
         MarksKept, Spent;
    ghost var d, log0 := v.d, BlocksOf(v.log);
    InoPositive(v.geo, ino);
    SpentOne(log0, InodeBlock(ino));
    var raw := NewInode(MODE_FILE, 1);
    NewRecord();
    StateFs(d, v.geo, v.csum, files, dir);
    MidStart(d, v.geo, v.csum, files, ino);
    MidFacts(d, d, v.geo, files, ino);
    RecordRead(raw, 0, []);
    NothingAt(d, v.geo, Kept(files, ino));
    RewriteDone(d, d, v.geo, v.csum, files, ino, raw, [], []);
    RewrittenKeeps(d, Saved(d, ino, raw, v.csum), v.geo, v.csum, files, dir, ino);
    RewrittenShown(d, Saved(d, ino, raw, v.csum), v.geo, v.csum, files, dir, ino, [], []);
    DataAvoids(d, v.geo, v.csum, files, ino, [], log0, log0 + {InodeBlock(ino)}) by {
      NoneIsOwn(v.geo, files, ino);
      NoElems();
      OnlyWroteOne(log0, log0 + {InodeBlock(ino)}, InodeBlock(ino));
      assert {} + {InodeBlock(ino)} == {InodeBlock(ino)};
    }
    Save(v, ino, raw);
    after := files[ino := []];
  }

  lemma RewrittenKeeps(d: Disk, e: Disk, geo: Geometry, csum: bool, files: FileMap, dir: nat, ino: nat)
    requires FsOk(d, geo, csum, files) && Rewritten(d, e, geo, csum, files, ino, [], []) && dir in files && dir != ino
    ensures FileKept(d, e, files[dir], dir) && InoUsed(e, ino) && MarksKept(d, e, geo)
  {
    hide FsOk, OthersKept, Kept, FileHolds, InoUsed, FileKept, MarksKept;
    KeptFile(d, e, geo, csum, files, ino, dir);
    SameMarks(d, e, geo, ino, Kept(files, ino));
    FsFile(e, geo, csum, files[ino := []], ino);
  }

  lemma RecordRead(raw: Extents.Raw, size: nat, p: seq<nat>)
    requires RecordIs(raw, size, p)
    ensures R16(raw, 128) <= 128
  {
    hide R16;
  }

  // ---- names ----

  /** dir_add: no file is touched by it. */
  method AddName(v: Device, dir: nat, name: seq<Byte>, t: Target, ghost files: FileMap, ghost ino: nat)
    returns (err: Option<FsErr>, ghost after: FileMap)
    requires v.Valid() && DirState(v.d, v.geo, v.csum, files, dir) && name !in ViewOf(v.d, files, dir)
    requires |name| < 256 && 0 < t.ino < U32_LIMIT
    modifies v`d, v`log
    ensures v.Valid() && DirState(v.d, v.geo, v.csum, after, dir) && after.Keys == files.Keys
      && SameBut(files, after, dir)
    ensures var view := ViewOf(old(v.d), files, dir);
            ViewOf(v.d, after, dir) == if err.None? then view[name := t] else view
    ensures Spared(old(v.d), v.d, files, after, dir, dir)
    ensures dir in files && err == AddOutcome(old(v.d), v.geo, files[dir], NeedFor(name))
    ensures UsedSet(v.d, v.geo) ==
            UsedSet(old(v.d), v.geo) + Elems(AddTakes(old(v.d), v.geo, files[dir], NeedFor(name)))
    ensures Avoids(BlocksOf(old(v.log)), BlocksOf(v.log), Kept(files, dir))
    ensures InoUsed(old(v.d), ino) && IsIno(v.geo, ino) ==> InoUsed(v.d, ino)
    ensures MarksKept(old(v.d), v.d, v.geo) && dir in after && |files[dir]| <= |after[dir]| <= |files[dir]| + 1
    ensures TallyMoves(old(v.d), v.d, dir, 0, |after[dir]| - |files[dir]|)
    ensures err.None? ==> after[dir] == files[dir] + AddTakes(old(v.d), v.geo, files[dir], NeedFor(name))
    ensures Spent(BlocksOf(old(v.log)), BlocksOf(v.log), 3)
  {
    hide TallyMoves, DirState, FsOk, ViewOf, Spared, OthersKept, Kept, Overwrite, BlocksOf, InoUsed, IsIno,
         AddOutcome, AddTakes, UsedSet, Avoids, NeedFor, MarksKept, Spent;
    ghost var d := v.d;
    StateFs(d, v.geo, v.csum, files, dir);
    err, after := DirAdd(v, dir, name, t.ino, t.ftype, files);
    SparedBy(d, v.d, v.geo, v.csum, files, after, dir, dir, dir);
    UsedStays(d, v.d, v.geo, dir, Kept(files, dir), ino);
    SameMarks(d, v.d, v.geo, dir, Kept(files, dir));
  }

  lemma UsedStays(d: Disk, e: Disk, geo: Geometry, i: nat, keep: set<nat>, ino: nat)
    requires OthersKept(d, e, geo, i, keep)
    ensures InoUsed(d, ino) && IsIno(geo, ino) ==> InoUsed(e, ino)
  {
    hide InoUsed, IsIno, SameMaps, SameInode, SameBlock;
    if InoUsed(d, ino) && IsIno(geo, ino) {
      StaysInUse(d, e, geo, ino);
    }
  }

  lemma SparedMore(d: Disk, e: Disk, files: FileMap, after: FileMap, dir: nat, ino: nat)
    requires Spared(d, e, files, after, dir, dir)
    ensures Spared(d, e, files, after, dir, ino)
  {
    hide FileKept;
  }

  /** dir_del. */
  method DropName(v: Device, dir: nat, name: seq<Byte>, ghost files: FileMap) returns (err: Option<FsErr>)
    requires v.Valid() && DirState(v.d, v.geo, v.csum, files, dir) && name in ViewOf(v.d, files, dir)
    modifies v`d, v`log
    ensures v.Valid() && DirState(v.d, v.geo, v.csum, files, dir) && err == None
    ensures ViewOf(v.d, files, dir) == ViewOf(old(v.d), files, dir) - {name}
      && Spared(old(v.d), v.d, files, files, dir, dir)
    ensures UsedSet(v.d, v.geo) == UsedSet(old(v.d), v.geo)
      && Avoids(BlocksOf(old(v.log)), BlocksOf(v.log), Kept(files, dir))
    ensures MarksKept(old(v.d), v.d, v.geo) && Spent(BlocksOf(old(v.log)), BlocksOf(v.log), 1)
    ensures TallyMoves(old(v.d), v.d, dir, 0, 0)
  {
    hide TallyMoves, DirState, FsOk, ViewOf, Spared, OthersKept, Kept, Overwrite, BlocksOf, UsedSet, Avoids,
         MarksKept, Spent;
    ghost var d := v.d;
    StateFs(d, v.geo, v.csum, files, dir);
    err := DirDel(v, dir, name, files);
    SparedBy(d, v.d, v.geo, v.csum, files, files, dir, dir, dir);
    SameMarks(d, v.d, v.geo, dir, Kept(files, dir));
  }

  /** No inode was marked or unmarked. */
  ghost predicate MarksKept(d: Disk, e: Disk, geo: Geometry) {
    forall j: nat :: IsIno(geo, j) ==> (InoUsed(e, j) <==> InoUsed(d, j))
  }

  lemma SameMarks(d: Disk, e: Disk, geo: Geometry, i: nat, keep: set<nat>)
    requires OthersKept(d, e, geo, i, keep)
    ensures MarksKept(d, e, geo)
  {
    hide InodeMapBlock, InodeGroup, InodeIndex, Bitmap.Bit, SameInode;
    forall j: nat | IsIno(geo, j)
      ensures InoUsed(e, j) <==> InoUsed(d, j)
    {
      assert SameBlock(d, e, InodeMapBlock(InodeGroup(j)));
    }
  }

  // ---- removing a file ----

  /** The inodes and the blocks of all other files are as they were. */
  ghost predicate RestKept(d: Disk, e: Disk, files: FileMap, ino: nat) {
    forall j :: j in files && j != ino ==> FileKept(d, e, files[j], j)
  }

  /** free_extents and free_inode: the file is gone, its blocks and its inode are free again. */
  method FreeFile(v: Device, ino: nat, ghost files: FileMap) returns (err: Option<FsErr>)
    requires v.Valid() && FsOk(v.d, v.geo, v.csum, files) && ino in files
    modifies v`d, v`log
    ensures v.Valid() && err == None && FsOk(v.d, v.geo, v.csum, files - {ino}) && RestKept(old(v.d), v.d, files, ino)
    ensures UsedSet(v.d, v.geo) == UsedSet(old(v.d), v.geo) - Elems(files[ino]) && !InoUsed(v.d, ino)
    ensures MarkLost(old(v.d), v.d, v.geo, ino)
    ensures Avoids(BlocksOf(old(v.log)), BlocksOf(v.log), Kept(files, ino))
      && Spent(BlocksOf(old(v.log)), BlocksOf(v.log), 1)
  {
    hide MarksKept, MarkLost, FsOk, InoUsed, Overwrite, BlocksOf, Elems, UsedSet, IsIno, InodeBlock, Mid, Freed,
         Distinct, DataList, Kept, OnlyAcct, InodeOk, Remarked, Remarkable, Accounting, R16, InodeAt, Avoids,
         InodeMapBlock, InodeGroup, Spent, RestKept;
    ghost var d, log0 := v.d, BlocksOf(v.log);
    FsParts(d, v.geo, v.csum, files);
    FsFile(d, v.geo, v.csum, files, ino);
    MidStart(d, v.geo, v.csum, files, ino);
    assert OldBlocks(files, ino) == files[ino];
    var got := LoadFile(v, ino, files);
    if got.Err? {
      return Some(Io);
    }
    FreeExtents(v, got.value, files[ino]);
    ghost var e, log1 := v.d, BlocksOf(v.log);
    FreedFile(d, e, v.geo, v.csum, files, ino);
    AcctAvoids(d, v.geo, v.csum, files, ino, log0, log1);
    UsedMark(e, ino);
    FreeInode(v, ino);
    MapAvoids(d, v.geo, v.csum, files, ino, ino, log1);
    SpentAcct(log0, log1, BlocksOf(v.log), InodeMapBlock(InodeGroup(ino)));
    AvoidsTrans(log0, log1, BlocksOf(v.log), Kept(files, ino));
    RemarkedFs(e, v.geo, v.csum, files - {ino}, ino, false);
    RemarkedSet(e, v.geo, ino, false, v.csum);
    RemarkedMarks(e, ino, false, v.csum, ino);
    MarkedLess(d, e, v.geo, ino, v.csum);
    RestThen(d, e, v.d, files, ino);
    Unmarked(v.d, ino);
    return None;
  }

  lemma RestThen(d: Disk, e: Disk, f: Disk, files: FileMap, ino: nat)
    requires RestKept(d, e, files, ino) && forall j :: j in files - {ino} ==> FileKept(e, f, (files - {ino})[j], j)
    ensures RestKept(d, f, files, ino)
  {
    hide InodeAt, InodeBlock;
    forall j | j in files && j != ino
      ensures FileKept(d, f, files[j], j)
    {
      assert FileKept(d, e, files[j], j) && FileKept(e, f, (files - {ino})[j], j);
      assert forall x :: x in files[j] ==> SameBlock(d, e, x) && SameBlock(e, f, x);
    }
  }

  /** Freeing one file, seen from a directory. */
  method Discard(v: Device, dir: nat, ino: nat, ghost files: FileMap) returns (err: Option<FsErr>)
    requires v.Valid() && DirState(v.d, v.geo, v.csum, files, dir) && ino in files && ino != dir
    modifies v`d, v`log
    ensures v.Valid() && DirState(v.d, v.geo, v.csum, files - {ino}, dir)
      && ViewOf(v.d, files - {ino}, dir) == ViewOf(old(v.d), files, dir)
    ensures err == None && Spared(old(v.d), v.d, files, files - {ino}, dir, ino)
    ensures UsedSet(v.d, v.geo) == UsedSet(old(v.d), v.geo) - Elems(files[ino]) && !InoUsed(v.d, ino)
    ensures Avoids(BlocksOf(old(v.log)), BlocksOf(v.log), Kept(files, ino))
      && Spent(BlocksOf(old(v.log)), BlocksOf(v.log), 1)
  {
    hide DirState, FsOk, ViewOf, Spared, InoUsed, Overwrite, BlocksOf, Elems, UsedSet, Kept, Avoids, Spent, FileKept;
    ghost var d := v.d;
    StateFs(d, v.geo, v.csum, files, dir);
    err := FreeFile(v, ino, files);
    DirStays(d, v.d, v.geo, v.csum, files, files - {ino}, dir);
    SparedRest(d, v.d, files, dir, ino);
  }

  lemma SparedRest(d: Disk, e: Disk, files: FileMap, dir: nat, ino: nat)
    requires RestKept(d, e, files, ino)
    ensures Spared(d, e, files, files - {ino}, dir, ino)
  {
    hide FileKept;
  }

  lemma AcctAvoids(d: Disk, geo: Geometry, csum: bool, files: FileMap, i: nat, a: set<nat>, b: set<nat>)
    requires FsOk(d, geo, csum, files) && OnlyAcct(a, b)
    ensures Avoids(a, b, Kept(files, i))
  {
    KeptFacts(d, geo, csum, files, i);
    hide FsOk, Kept;
    forall x: nat | x in Kept(files, i)
      ensures !IsAcct(x)
    {
      BeyondBoot(x);
    }
  }

  lemma UsedMark(d: Disk, ino: nat)
    requires InoUsed(d, ino)
    ensures ino >= 1 && Marked(d, ino)
  {
  }

  lemma Unmarked(d: Disk, ino: nat)
    requires ino >= 1 && !Marked(d, ino)
    ensures !InoUsed(d, ino)
  {
  }

  method LoadFile(v: Device, ino: nat, ghost files: FileMap) returns (r: Result<Extents.Raw, FsErr>)
    requires FsOk(v.d, v.geo, v.csum, files) && ino in files
    ensures r.Ok? && Extents.Holds(AreaOf(r.value), files[ino])
    ensures IsIno(v.geo, ino) && InoUsed(v.d, ino) && ino < U32_LIMIT
  {
    hide FsOk, Accounting, Extents.Holds, CsumOk, AreaOf, InodeAt, InodeBlock, IsIno, R16, OwnBlocks, InoUsed;
    FsParts(v.d, v.geo, v.csum, files);
    FsFile(v.d, v.geo, v.csum, files, ino);
    RecordFits(v.d, v.geo, v.csum, ino, files[ino]);
    r := Load(v, ino);
  }

  /** Freeing the blocks of a file, seen from the others. */
  lemma FreedFile(d: Disk, e: Disk, geo: Geometry, csum: bool, files: FileMap, ino: nat)
    requires FsOk(d, geo, csum, files) && ino in files && Freed(d, e, geo, files[ino], |files[ino]|)
    ensures FsOk(e, geo, csum, files - {ino}) && RestKept(d, e, files, ino)
    ensures UsedSet(e, geo) == UsedSet(d, geo) - Elems(files[ino]) && InoUsed(e, ino) && Accounting(e, geo)
      && IsIno(geo, ino) && MarksKept(d, e, geo)
  {
    hide *;
    MidStart(d, geo, csum, files, ino);
    OldIs(files, ino);
    MidFreed(d, d, e, geo, files, ino, files[ino]);
    MidParts(d, e, geo, files, ino);
    FsWithout(d, e, geo, csum, files, ino);
    RestIs(d, e, geo, csum, files, ino);
    SameMarks(d, e, geo, ino, Kept(files, ino));
    FsFile(d, geo, csum, files, ino);
    FileIno(d, geo, csum, ino, files[ino]);
    UsedStays(d, e, geo, ino, Kept(files, ino), ino);
  }

  lemma RestIs(d: Disk, e: Disk, geo: Geometry, csum: bool, files: FileMap, ino: nat)
    requires FsOk(d, geo, csum, files) && OthersKept(d, e, geo, ino, Kept(files, ino))
    ensures RestKept(d, e, files, ino)
  {
    hide FsOk, OthersKept, FileKept, Kept;
    forall j | j in files && j != ino
      ensures FileKept(d, e, files[j], j)
    {
      KeptFile(d, e, geo, csum, files, ino, j);
    }
  }

  lemma OldIs(files: FileMap, ino: nat)
    requires ino in files
    ensures OldBlocks(files, ino) == files[ino]
  {
  }

  lemma FileIno(d: Disk, geo: Geometry, csum: bool, ino: nat, p: seq<nat>)
    requires FileOk(d, geo, csum, ino, p)
    ensures IsIno(geo, ino)
  {
  }

  lemma MidParts(d: Disk, e: Disk, geo: Geometry, files: FileMap, ino: nat)
    requires Mid(d, e, geo, files, ino)
    ensures Accounting(e, geo) && MetaUsed(e, geo) && Kept(files, ino) <= UsedSet(e, geo)
      && OthersKept(d, e, geo, ino, Kept(files, ino))
  {
  }

  // ---- what the entries of a directory lead to ----

  ghost predicate RealTargets(es: seq<DirEnt>) {
    forall i :: 0 <= i < |es| ==> 0 < es[i].target.ino < U32_LIMIT
  }

  lemma {:induction false} LiveTargets(b: Block, o: nat)
    requires TiledFrom(b, o)
    ensures RealTargets(LiveFrom(b, o))
    decreases 4096 - o
  {
    hide R32;
    if o != 4096 {
      LiveTargets(b, o + RecAt(b, o));
    }
  }

  lemma {:induction false} EntriesTargets(d: Disk, p: seq<nat>)
    ensures RealTargets(DirectoryOps.Entries(d, p))
  {
    hide BlockOk, LiveFrom, TiledFrom;
    if p != [] {
      EntriesTargets(d, p[..|p| - 1]);
      var x := p[|p| - 1];
      if x < |d| && BlockOk(d[x]) && TiledFrom(d[x], 0) {
        LiveTargets(d[x], 0);
      }
    }
  }

  lemma {:induction false} MapTargets(es: seq<DirEnt>, name: seq<Byte>)
    requires RealTargets(es) && name in AsMap(es)
    ensures 0 < AsMap(es)[name].ino < U32_LIMIT
  {
    if es[0].name != name {
      MapTargets(es[1..], name);
    }
  }

  lemma TargetFits(d: Disk, geo: Geometry, csum: bool, files: FileMap, dir: nat, name: seq<Byte>)
    requires DirState(d, geo, csum, files, dir) && name in ViewOf(d, files, dir)
    ensures 0 < ViewOf(d, files, dir)[name].ino < U32_LIMIT
  {
    hide AsMap, DirectoryOps.Entries, DirState;
    EntriesTargets(d, files[dir]);
    MapTargets(DirectoryOps.Entries(d, files[dir]), name);
  }

  /** Whether a directory has room depends on its blocks only. */
  lemma RoomSame(d: Disk, e: Disk, p: seq<nat>, j: nat, need: nat)
    requires FileKept(d, e, p, j)
    ensures RoomIn(e, p, need) <==> RoomIn(d, p, need)
  {
    hide InodeAt, InodeBlock, BlockOk, HasRoom;
    forall i: nat | i < |p|
      ensures RoomAt(e, p[i], need) <==> RoomAt(d, p[i], need)
    {
      assert SameBlock(d, e, p[i]);
    }
  }

  /** What dir_add will answer does not change while directory blocks and free blocks stay. */
  lemma AddSame(d: Disk, e: Disk, geo: Geometry, p: seq<nat>, j: nat, need: nat)
    requires FileKept(d, e, p, j) && UsedSet(e, geo) == UsedSet(d, geo)
    ensures AddOutcome(e, geo, p, need) == AddOutcome(d, geo, p, need)
      && AddTakes(e, geo, p, need) == AddTakes(d, geo, p, need)
  {
    hide UsedSet, RoomIn, FileKept;
    RoomSame(d, e, p, j, need);
  }
}
