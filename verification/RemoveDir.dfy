/** rmdir: the name and the empty directory it leads to are gone. With a name that leads to the
    directory itself, as its first entry does, that directory is freed while it is still in use. */
module RemoveDir {
  import opened Bytes
  import opened Collections
  import opened Wrappers
  import opened Disk
  import Extents
  import opened Volume
  import opened Inodes
  import opened Files
  import opened FileSystem
  import opened FileWrite
  import opened Directory
  import opened DirectoryOps
  import opened DirCatalog
  import opened DirSteps
  import opened NamedFiles
  import opened MakeDir
  import opened RootDir
  import opened InodeAlloc

  // ---- whether a directory is empty ----

  predicate IsDots(name: seq<Byte>) { name == DOT || name == DOT_DOT }

  /** Nothing but itself and its parent. */
  ghost predicate OnlyDots(es: seq<DirEnt>) {
    forall i :: 0 <= i < |es| ==> IsDots(es[i].name)
  }

  lemma DotsConcat(a: seq<DirEnt>, b: seq<DirEnt>)
    ensures OnlyDots(a + b) <==> OnlyDots(a) && OnlyDots(b)
  {
    if OnlyDots(a + b) {
      assert forall i :: 0 <= i < |a| ==> (a + b)[i] == a[i];
      assert forall i :: 0 <= i < |b| ==> (a + b)[|a| + i] == b[i];
    }
  }

  /** The entries are those of an empty directory exactly if its map has no other name. */
  lemma DotsInMap(es: seq<DirEnt>)
    ensures OnlyDots(es) <==> forall name :: name in AsMap(es) ==> IsDots(name)
  {
    hide AsMap;
    forall name
      ensures name in AsMap(es) <==> exists i :: 0 <= i < |es| && es[i].name == name
    {
      AsMapKeys(es, name);
    }
    forall i | 0 <= i < |es|
      ensures es[i].name in AsMap(es)
    {
    }
  }

  lemma DotsSoFar(b: Block, o: nat)
    requires TiledFrom(b, 0) && Reaches(b, 0, o) && o < 4096 && OnlyDots(Before(b, 0, o))
    requires RecordOk(b, o) && (InoAt(b, o) != 0 ==> IsDots(EntAt(b, o).name))
    ensures OnlyDots(Before(b, 0, o) + Here(b, o))
  {
    HereIs(b, o);
    hide Before, Here, EntAt;
    DotsConcat(Before(b, 0, o), Here(b, o));
  }

  lemma OtherFound(b: Block, o: nat)
    requires TiledFrom(b, 0) && o < 4096 && Reaches(b, 0, o) && RecordOk(b, o) && InoAt(b, o) != 0
      && !IsDots(EntAt(b, o).name)
    ensures !OnlyDots(Live(b))
  {
    LiveAround(b, o);
    hide EntAt, Live, LiveFrom, Before;
    DotsConcat(Before(b, 0, o) + [EntAt(b, o)], LiveFrom(b, o + RecAt(b, o)));
    DotsConcat(Before(b, 0, o), [EntAt(b, o)]);
    assert [EntAt(b, o)][0] == EntAt(b, o);
  }

  lemma DotsStop(b: Block, o: nat)
    requires BlockOk(b) && o + 8 <= 4096 && (RecAt(b, o) == 0 || o + RecAt(b, o) > 4096)
    requires TiledFrom(b, 0) ==> Reaches(b, 0, o)
    ensures OnlyDots(Live(b))
  {
    if TiledFrom(b, 0) {
      ReachNext(b, 0, o);
    }
  }

  lemma DotsEnd(b: Block, o: nat)
    requires BlockOk(b) && 4096 < o + 8 <= 4104 && (!TiledFrom(b, 0) ==> o == 0)
    requires TiledFrom(b, 0) ==> Reaches(b, 0, o) && OnlyDots(Before(b, 0, o))
    ensures OnlyDots(Live(b))
  {
    ReachTiled(b, 0, o);
    EndTiled(b);
  }

  /** The walk of one block. */
  method OthersInBlock(b: Block) returns (found: bool)
    requires BlockOk(b)
    ensures found <==> !OnlyDots(Live(b))
  {
    hide Live, LiveFrom, Before, Reaches, TiledFrom, EntAt, Here;
    BlockCases(b);
    var o := 0;
    while o + 8 <= 4096
      invariant o <= 4096
      invariant TiledFrom(b, 0) ==> Reaches(b, 0, o) && OnlyDots(Before(b, 0, o))
      invariant !TiledFrom(b, 0) ==> o == 0
      decreases 4096 - o
    {
      var rec := RecAt(b, o);
      if rec == 0 || o + rec > 4096 {
        DotsStop(b, o);
        return false;
      }
      ReachNext(b, 0, o);
      if InoAt(b, o) != 0 {
        HereIs(b, o);
        var e := EntAt(b, o);
        if !IsDots(e.name) {
          OtherFound(b, o);
          return true;
        }
      }
      DotsSoFar(b, o);
      ReachTiled(b, 0, o + rec);
      o := o + rec;
    }
    DotsEnd(b, o);
    return false;
  }

  /** The walk of rmdir over the blocks of a directory: does it have any entry but the two? */
  method HasOthers(v: Device, ino: nat, ghost p: seq<nat>) returns (r: Result<bool, FsErr>)
    requires Accounting(v.d, v.geo) && InodeOk(v.d, v.geo, v.csum, ino, p) && DirOk(v.d, p)
      && IsDirectory(v.d, ino, p)
    ensures r == Ok(!OnlyDots(DirectoryOps.Entries(v.d, p)))
  {
    hide Accounting, Extents.Holds, CsumOk, InodeAt, AreaOf, IsIno, InodeBlock, R16, IsDirectory, Mode, Size,
         DirectoryOps.Entries, BlockOk, Live, DirOk, OnlyDots;
    RecordFits(v.d, v.geo, v.csum, ino, p);
    DirInode(v.d, ino, p);
    var got := Load(v, ino);
    if got.Err? {
      return Err(Io);
    }
    var raw := got.value;
    if Mode(raw) / 0x4000 % 2 != 1 {
      return Err(NotDir);
    }
    var k := 0;
    NoneYet(v.d, p);
    while 4096 * k < Size(raw)
      invariant k <= |p| && OnlyDots(DirectoryOps.Entries(v.d, p[..k]))
      decreases |p| - k
    {
      var phys := Extents.ExtentMap(AreaOf(raw), k, p);
      if phys.None? {
        return Err(Io);
      }
      BlockAt(v.d, p, k);
      var b := v.ReadBlock(phys.value);
      var found := OthersInBlock(b);
      OneBlockMore(v.d, p, k);
      if found {
        return Ok(true);
      }
      k := k + 1;
    }
    assert p[..k] == p;
    return Ok(false);
  }

  lemma NoneYet(d: Disk, p: seq<nat>)
    ensures OnlyDots(DirectoryOps.Entries(d, p[..0]))
  {
  }

  lemma OneBlockMore(d: Disk, p: seq<nat>, k: nat)
    requires k < |p| && p[k] < |d| && BlockOk(d[p[k]]) && OnlyDots(DirectoryOps.Entries(d, p[..k]))
    ensures OnlyDots(DirectoryOps.Entries(d, p[..k + 1])) <==> OnlyDots(Live(d[p[k]]))
    ensures !OnlyDots(Live(d[p[k]])) ==> !OnlyDots(DirectoryOps.Entries(d, p))
  {
    hide BlockOk, Live, OnlyDots;
    assert p[..k + 1][..k] == p[..k];
    DotsConcat(DirectoryOps.Entries(d, p[..k]), Live(d[p[k]]));
    EntriesAround(d, p, k);
    DotsConcat(DirectoryOps.Entries(d, p[..k]) + Live(d[p[k]]), EntriesFrom(d, p, k + 1));
  }

  // ---- rmdir ----

  /** The inode a directory's name leads to. */
  predicate LeadsDown(c: Catalog, name: seq<Byte>) { name in c.others && c.others[name].ftype == FT_DIR }

  /** A name of a directory leads to one whose entries are in order. */
  ghost predicate SoundBelow(d: Disk, geo: Geometry, csum: bool, files: FileMap, c: Catalog, name: seq<Byte>) {
    LeadsDown(c, name) ==> DirState(d, geo, csum, files, c.others[name].ino)
  }

  /** The directory of this name has nothing but its two own entries. */
  ghost predicate IsEmptyBelow(d: Disk, files: FileMap, c: Catalog, name: seq<Byte>) {
    LeadsDown(c, name) && forall other :: other in ViewOf(d, files, c.others[name].ino) ==> IsDots(other)
  }

  /** What rmdir answers: the name must be there, be a directory's, and that directory be empty. */
  ghost predicate RmdirAnswers(d: Disk, files: FileMap, c: Catalog, name: seq<Byte>, err: Option<FsErr>) {
    && (err.None? <==> IsEmptyBelow(d, files, c, name)) && (err == Some(NotFound) <==> !Known(c, name))
    && (err == Some(NotDir) <==> Known(c, name) && !LeadsDown(c, name))
    && (err == Some(NotEmpty) <==> LeadsDown(c, name) && !IsEmptyBelow(d, files, c, name))
  }

  lemma EmptyIs(d: Disk, files: FileMap, c: Catalog, name: seq<Byte>)
    requires LeadsDown(c, name) && c.others[name].ino in files
    ensures IsEmptyBelow(d, files, c, name) <==> OnlyDots(DirectoryOps.Entries(d, files[c.others[name].ino]))
  {
    hide DirectoryOps.Entries, AsMap, OnlyDots, IsDots;
    DotsInMap(DirectoryOps.Entries(d, files[c.others[name].ino]));
  }

  /** rmdir up to the point where the directory and its inode are free. The directory that held the
      name is still there afterwards exactly if the name led to another one: rmdir does not refuse the
      name of the directory's own first entry. */
  method Release(v: Device, dir: nat, name: seq<Byte>, ghost files: FileMap, ghost c: Catalog)
    returns (err: Option<FsErr>, ino: nat)
    requires v.Valid() && Represents(v.d, v.geo, v.csum, files, dir, c)
    requires SoundBelow(v.d, v.geo, v.csum, files, c, name)
    modifies v`d, v`log
    ensures v.Valid() && RmdirAnswers(old(v.d), files, c, name, err)
    ensures err.Some? ==> v.d == old(v.d) && v.log == old(v.log)
    ensures err.None? ==>
              && ino == c.others[name].ino && ino in files && FsOk(v.d, v.geo, v.csum, files - {ino})
              && RestKept(old(v.d), v.d, files, ino) && !InoUsed(v.d, ino)
              && UsedSet(v.d, v.geo) == UsedSet(old(v.d), v.geo) - Elems(files[ino])
              && MarkLost(old(v.d), v.d, v.geo, ino) && (InoUsed(v.d, dir) <==> ino != dir)
  {
    hide DirState, FsOk, ViewOf, Represents, Overwrite, BlocksOf, Elems, UsedSet, RestKept, InoUsed, FileIs, DirOk,
         MarkLost,
         InodeOk, IsDirectory, Accounting, InodeAt, Mode, OnlyDots, IsEmptyBelow, Kept, Avoids, Spent;
    ghost var d := v.d;
    Sound(d, v.geo, v.csum, files, dir, c);
    StateFs(d, v.geo, v.csum, files, dir);
    ContentsOf(d, v.geo, v.csum, files, dir, c, name);
    OthersAgree(d, v.geo, v.csum, files, dir, c, name);
    NotEmptyBelow(d, files, c, name);
    ino := 0;
    var t := Find(v, dir, name, files);
    if t.Err? {
      return Some(NotFound), ino;
    }
    if t.value.ftype != FT_DIR {
      return Some(NotDir), ino;
    }
    ino := t.value.ino;
    StateIno(d, v.geo, v.csum, files, ino);
    EmptyIs(d, files, c, name);
    var others := HasOthers(v, ino, files[ino]);
    if others.value {
      return Some(NotEmpty), ino;
    }
    err := FreeFile(v, ino, files);
    if ino != dir {
      FsFile(v.d, v.geo, v.csum, files - {ino}, dir);
    }
  }

  lemma NotEmptyBelow(d: Disk, files: FileMap, c: Catalog, name: seq<Byte>)
    ensures IsEmptyBelow(d, files, c, name) ==> LeadsDown(c, name)
  {
  }

  lemma OthersAgree(d: Disk, geo: Geometry, csum: bool, files: FileMap, dir: nat, c: Catalog, name: seq<Byte>)
    requires Represents(d, geo, csum, files, dir, c)
    ensures name in c.others ==> name in ViewOf(d, files, dir) && c.others[name] == ViewOf(d, files, dir)[name]
    ensures FT_DIR != FT_FILE
  {
    hide DirState, ViewOf, HasContents;
  }

  // ---- the parent ----

  /** `saturating_sub(1)` on the count of names. */
  function FewerLinks(raw: Extents.Raw): (r: Extents.Raw) {
    W16(raw, 26, if R16(raw, 26) == 0 then 0 else R16(raw, 26) - 1)
  }

  lemma FewerLinksReads(raw: Extents.Raw)
    ensures var r := FewerLinks(raw);
      && AreaOf(r) == AreaOf(raw) && Mode(r) == Mode(raw) && Size(r) == Size(raw) && R16(r, 128) == R16(raw, 128)
      && R16(r, 26) == (if R16(raw, 26) == 0 then 0 else R16(raw, 26) - 1) && R32(r, 28) == R32(raw, 28)
  {
    LinksFit(raw);
    hide R16, R32, W16;
    var n := if R16(raw, 26) == 0 then 0 else R16(raw, 26) - 1;
    W16Keeps(raw, 26, n);
    assert AreaOf(W16(raw, 26, n)) == AreaOf(raw);
  }

  /** The inode lost one name, if it had any, and kept its blocks. */
  ghost predicate LinkLost(d: Disk, e: Disk, ino: nat) {
    && ino >= 1 && InodeBlock(ino) < |d| == |e|
    && R16(InodeAt(e, ino), 26) == (if R16(InodeAt(d, ino), 26) == 0 then 0 else R16(InodeAt(d, ino), 26) - 1)
    && R32(InodeAt(e, ino), 28) == R32(InodeAt(d, ino), 28)
  }

  lemma LinkLostBetween(d: Disk, m: Disk, n: Disk, f: Disk, e: Disk, ino: nat)
    requires SameInode(d, m, ino) && TallyMoves(m, n, ino, 0, 0) && LinkLost(n, f, ino) && SameInode(f, e, ino)
    ensures LinkLost(d, e, ino)
  {
    NothingMoved(m, n, ino);
    hide InodeAt, InodeBlock, R16, R32, TallyMoves;
  }

  lemma NothingMoved(d: Disk, e: Disk, ino: nat)
    requires TallyMoves(d, e, ino, 0, 0)
    ensures ino >= 1 && InodeBlock(ino) < |d| == |e|
    ensures R16(InodeAt(e, ino), 26) == R16(InodeAt(d, ino), 26) && R32(InodeAt(e, ino), 28) == R32(InodeAt(d, ino), 28)
  {
    LinksFit(InodeAt(d, ino));
    SectorsFit(InodeAt(d, ino));
    hide InodeAt, InodeBlock, R16, R32;
  }

  method DropLink(v: Device, dir: nat, ghost files: FileMap) returns (err: Option<FsErr>)
    requires v.Valid() && DirState(v.d, v.geo, v.csum, files, dir)
    modifies v`d, v`log
    ensures v.Valid() && err == None && DirState(v.d, v.geo, v.csum, files, dir)
      && ViewOf(v.d, files, dir) == ViewOf(old(v.d), files, dir)
    ensures Spared(old(v.d), v.d, files, files, dir, dir) && UsedSet(v.d, v.geo) == UsedSet(old(v.d), v.geo)
    ensures LinkLost(old(v.d), v.d, dir) && MarksKept(old(v.d), v.d, v.geo)
  {
    hide DirState, ViewOf, Spared, UsedSet, Accounting, Overwrite, BlocksOf, InodeAt, InodeBlock, IsIno, R16, R32,
         AreaOf, Mode, Size, Saved, FewerLinks, FsOk, DirOk, CsumOk, Extents.Holds, MarksKept;
    ghost var d := v.d;
    StateRecord(d, v.geo, v.csum, files, dir);
    var got := Load(v, dir);
    if got.Err? {
      return Some(Io);
    }
    FewerLinksReads(got.value);
    ResavedShown(d, v.geo, v.csum, files, dir, FewerLinks(got.value));
    StateFs(d, v.geo, v.csum, files, dir);
    InoPositive(v.geo, dir);
    SavedTally(d, dir, FewerLinks(got.value), v.csum);
    Save(v, dir, FewerLinks(got.value));
    return None;
  }

  // ---- the whole command ----

  function WithoutDir(c: Catalog, name: seq<Byte>): Catalog { c.(others := c.others - {name}) }

  /** The directory's name leads to another one, and no file of the directory is that inode. */
  ghost predicate LeadsAway(d: Disk, files: FileMap, dir: nat, c: Catalog, name: seq<Byte>) {
    LeadsDown(c, name) ==>
      && c.others[name].ino != dir
      && forall a :: IsFile(ViewOf(d, files, dir), a) ==> ViewOf(d, files, dir)[a].ino != c.others[name].ino
  }

  lemma DirDropped(d: Disk, e: Disk, geo: Geometry, csum: bool, files: FileMap, after: FileMap, dir: nat, c: Catalog,
                   name: seq<Byte>)
    requires Represents(d, geo, csum, files, dir, c) && DirState(e, geo, csum, after, dir)
    requires LeadsDown(c, name) && LeadsAway(d, files, dir, c, name)
      && ViewOf(e, after, dir) == ViewOf(d, files, dir) - {name}
    requires Spared(d, e, files, after, dir, c.others[name].ino)
    ensures Represents(e, geo, csum, after, dir, WithoutDir(c, name))
  {
    hide DirState, ViewOf, FileIs, Spared;
    var view, now, c2 := ViewOf(d, files, dir), ViewOf(e, after, dir), WithoutDir(c, name);
    forall a | a in c2.files && IsFile(now, a)
      ensures FileIs(e, after, dir, now[a].ino, c2.files[a])
    {
      assert a in c.files && IsFile(view, a);
      FileStays(d, e, files, after, dir, c.others[name].ino, view[a].ino, c.files[a]);
    }
  }

  lemma RmdirDone(d: Disk, files: FileMap, c: Catalog, name: seq<Byte>)
    requires RmdirAnswers(d, files, c, name, None)
    ensures LeadsDown(c, name)
  {
    hide ViewOf;
  }

  lemma RestAt(d: Disk, e: Disk, files: FileMap, ino: nat, j: nat)
    requires RestKept(d, e, files, ino) && j in files && j != ino
    ensures FileKept(d, e, files[j], j)
  {
    hide FileKept;
  }

  lemma GroupOfIno(d: Disk, geo: Geometry, csum: bool, files: FileMap, ino: nat)
    requires FsOk(d, geo, csum, files) && ino in files
    ensures ino >= 1 && InodeGroup(ino) < geo.groups
  {
    FsFile(d, geo, csum, files, ino);
    FileIno(d, geo, csum, ino, files[ino]);
  }

  /** Group `g` counts one directory less, if it counted any. */
  ghost predicate OneDirLess(dirs: seq<nat>, now: seq<nat>, g: nat) {
    && |now| == |dirs| && (forall h: nat :: h < |dirs| && h != g ==> now[h] == dirs[h])
    && (g < |dirs| ==> now[g] == if dirs[g] == 0 then 0 else (dirs[g] - 1) % U32_LIMIT)
  }

  lemma DirCountedOff(dirs: seq<nat>, g: nat)
    ensures OneDirLess(dirs, DirsMoved(dirs, g, -1), g)
  {
  }

  /** rmdir of a name that leads to another directory: the name, the directory and its inode are gone,
      every other name and file stays, and the parent has one name less. */
  method RemoveDirectory(v: Device, dir: nat, name: seq<Byte>, ghost files: FileMap, ghost c: Catalog)
    returns (err: Option<FsErr>, ghost after: FileMap, ghost now: Catalog, ino: nat)
    requires v.Valid() && Represents(v.d, v.geo, v.csum, files, dir, c)
    requires SoundBelow(v.d, v.geo, v.csum, files, c, name) && LeadsAway(v.d, files, dir, c, name)
    modifies v`d, v`log, v`dirs
    ensures v.Valid() && Represents(v.d, v.geo, v.csum, after, dir, now) && RmdirAnswers(old(v.d), files, c, name, err)
    ensures err.Some? ==> v.d == old(v.d) && v.dirs == old(v.dirs) && after == files && now == c
    ensures err.None? ==>
              && now == WithoutDir(c, name) && ino == c.others[name].ino && ino in files && after == files - {ino}
              && Gone(old(v.d), v.d, v.geo, files, dir, ino) && OneDirLess(old(v.dirs), v.dirs, InodeGroup(ino))
  {
    hide DirState, FsOk, ViewOf, Represents, Overwrite, BlocksOf, Elems, UsedSet, RestKept, InoUsed, Spared, FileKept,
         RmdirAnswers, MarksKept, OneDirLess, InodeGroup, Counts, IsIno, OthersKept, Kept, Bumped, SameInode;
    ghost var d := v.d;
    Sound(d, v.geo, v.csum, files, dir, c);
    OthersAgree(d, v.geo, v.csum, files, dir, c, name);
    err, ino := Release(v, dir, name, files, c);
    after, now := files, c;
    if err.Some? {
      return;
    }
    RmdirDone(d, files, c, name);
    after, now := files - {ino}, WithoutDir(c, name);
    ghost var m := v.d;
    StateFs(d, v.geo, v.csum, files, dir);
    DirStays(d, m, v.geo, v.csum, files, after, dir) by {
      RestAt(d, m, files, ino, dir);
    }
    SparedRest(d, m, files, dir, ino);
    err := DropName(v, dir, name, after);
    ghost var n := v.d;
    SparedMore(m, n, after, after, dir, ino);
    SparedTrans(d, m, n, files, after, after, dir, ino);
    MarksThen(d, m, n, v.geo, ino);
    err := DropLink(v, dir, after);
    ghost var f := v.d;
    SparedMore(n, f, after, after, dir, ino);
    SparedTrans(d, n, f, files, after, after, dir, ino);
    MarksThen(d, n, f, v.geo, ino);
    StateFs(f, v.geo, v.csum, after, dir);
    GroupOfIno(d, v.geo, v.csum, files, ino);
    DirCountedOff(v.dirs, InodeGroup(ino));
    BumpUsedDirs(v, InodeGroup(ino), -1, after);
    ghost var e := v.d;
    BumpShown(f, e, v.geo, v.csum, after, dir);
    SparedMore(f, e, after, after, dir, ino);
    SparedTrans(d, f, e, files, after, after, dir, ino);
    SameMarks(f, e, v.geo, 0, Kept(after, 0));
    MarksThen(d, f, e, v.geo, ino);
    LinkLostBetween(d, m, n, f, e, dir) by {
      RestAt(d, m, files, ino, dir);
      InodeKept(d, m, files, dir);
      ParentApart(f, e, v.geo, v.csum, after, dir, 0);
    }
    DirDropped(d, e, v.geo, v.csum, files, after, dir, c, name);
  }

  /** The inode is free, with its blocks, and nothing else is. */
  ghost predicate Gone(d: Disk, e: Disk, geo: Geometry, files: FileMap, dir: nat, ino: nat) {
    && ino in files && UsedSet(e, geo) == UsedSet(d, geo) - Elems(files[ino])
    && Spared(d, e, files, files - {ino}, dir, ino) && LinkLost(d, e, dir)
    && MarkLost(d, e, geo, ino)
  }

  lemma MarksThen(d: Disk, m: Disk, e: Disk, geo: Geometry, ino: nat)
    requires MarkLost(d, m, geo, ino) && MarksKept(m, e, geo)
    ensures MarkLost(d, e, geo, ino)
  {
    hide InoUsed, IsIno;
    forall j: nat | IsIno(geo, j)
      ensures InoUsed(e, j) <==> InoUsed(d, j) && j != ino
    {
      assert InoUsed(e, j) <==> InoUsed(m, j);
    }
  }

  // ---- mkdir undone ----

  /** The new directory is in order, empty, and nobody else's. */
  lemma JustMade(d: Disk, m: Disk, geo: Geometry, csum: bool, files: FileMap, after: FileMap, dir: nat, c: Catalog,
                 name: seq<Byte>, ino: nat)
    requires Represents(d, geo, csum, files, dir, c) && DirState(m, geo, csum, after, dir)
    requires EmptyDir(m, after, ino, dir) && ino !in files && dir in files
    requires ViewOf(m, after, dir) == ViewOf(d, files, dir)[name := Target(ino, FT_DIR)]
    ensures var now := WithDir(c, name, ino);
      && SoundBelow(m, geo, csum, after, now, name) && LeadsAway(m, after, dir, now, name)
      && IsEmptyBelow(m, after, now, name)
  {
    hide *;
    var now := WithDir(c, name, ino);
    LeadsNew(c, name, ino);
    StateFs(m, geo, csum, after, dir);
    NewState(m, geo, csum, after, ino, dir);
    NewIsSound(m, geo, csum, after, now, name, ino);
    NewIsEmpty(m, after, now, name, ino, dir);
    NewIsApart(d, m, geo, csum, files, after, dir, c, name, ino);
  }

  lemma LeadsNew(c: Catalog, name: seq<Byte>, ino: nat)
    ensures var now := WithDir(c, name, ino); LeadsDown(now, name) && now.others[name].ino == ino
  {
  }

  lemma NewIsSound(d: Disk, geo: Geometry, csum: bool, files: FileMap, c: Catalog, name: seq<Byte>, ino: nat)
    requires LeadsDown(c, name) && c.others[name].ino == ino && DirState(d, geo, csum, files, ino)
    ensures SoundBelow(d, geo, csum, files, c, name)
  {
    hide DirState;
  }

  lemma NewIsEmpty(d: Disk, files: FileMap, c: Catalog, name: seq<Byte>, ino: nat, parent: nat)
    requires LeadsDown(c, name) && c.others[name].ino == ino && EmptyDir(d, files, ino, parent)
    ensures IsEmptyBelow(d, files, c, name)
  {
    hide AsMap, IsDirectory, DirOk, DirectoryOps.Entries, Tallied, DotEntries;
    DotsLead(ino, parent);
  }

  lemma NewIsApart(d: Disk, m: Disk, geo: Geometry, csum: bool, files: FileMap, after: FileMap, dir: nat, c: Catalog,
                   name: seq<Byte>, ino: nat)
    requires Represents(d, geo, csum, files, dir, c) && ino !in files && dir in files
    requires ViewOf(m, after, dir) == ViewOf(d, files, dir)[name := Target(ino, FT_DIR)]
    ensures LeadsAway(m, after, dir, WithDir(c, name, ino), name)
  {
    hide Represents, ViewOf, FileIs;
    forall a | IsFile(ViewOf(m, after, dir), a)
      ensures ViewOf(m, after, dir)[a].ino != ino
    {
      ContentsOf(d, geo, csum, files, dir, c, a);
      InFiles(d, files, dir, ViewOf(d, files, dir)[a].ino, c.files[a]);
    }
  }

  lemma NewState(d: Disk, geo: Geometry, csum: bool, files: FileMap, ino: nat, parent: nat)
    requires FsOk(d, geo, csum, files) && EmptyDir(d, files, ino, parent)
    ensures DirState(d, geo, csum, files, ino)
  {
    hide FsOk, IsDirectory, DirOk, DirectoryOps.Entries, Tallied;
  }

  /** All is as before, but for the blocks that the parent grew by and for counts at their limits. */
  ghost predicate Undone(d: Disk, e: Disk, geo: Geometry, files: FileMap, after: FileMap, dir: nat) {
    && dir in files && dir in after && after.Keys == files.Keys && SameBut(files, after, dir)
    && Spared(d, e, files, after, dir, dir) && MarksKept(d, e, geo)
    && UsedSet(e, geo) == UsedSet(d, geo) + Elems(after[dir])
    && dir >= 1 && InodeBlock(dir) < |d| == |e|
    && R16(InodeAt(e, dir), 26) == if R16(InodeAt(d, dir), 26) == 0xFFFF then 0 else R16(InodeAt(d, dir), 26)
  }

  lemma SurelyRemoved(d: Disk, files: FileMap, c: Catalog, name: seq<Byte>, err: Option<FsErr>)
    requires RmdirAnswers(d, files, c, name, err) && IsEmptyBelow(d, files, c, name)
    ensures err.None?
  {
    hide IsEmptyBelow;
  }

  lemma NewName(d: Disk, geo: Geometry, files: FileMap, dir: nat, c: Catalog, name: seq<Byte>, ino: nat)
    requires MkdirAnswer(d, geo, files, dir, c, name).None?
    ensures WithoutDir(WithDir(c, name, ino), name) == c
  {
    hide FreeSpace.FreeList, UsedSet, RoomIn, GrowOutcome, NoInodeLeft;
    assert c.others[name := Target(ino, FT_DIR)] - {name} == c.others;
  }

  lemma UndoneIs(d: Disk, m: Disk, e: Disk, geo: Geometry, files: FileMap, mid: FileMap, dir: nat, ino: nat)
    requires TookDir(d, m, geo, files, mid, dir, ino) && Spared(d, m, files, mid, dir, ino) && ino !in files
    requires ParentTally(d, m, files, mid, dir, 1) && Gone(m, e, geo, mid, dir, ino)
    ensures Undone(d, e, geo, files, mid - {ino}, dir)
  {
    var after := mid - {ino};
    MarksBack(d, m, e, geo, ino);
    SparedBack(d, m, e, files, mid, dir, ino);
    LinksBack(d, m, e, files, mid, dir);
    hide Spared, MarksKept, MarkGained, MarkLost, UsedSet, Elems, TallyMoves, InoUsed, LinkLost;
    assert after[dir] == mid[dir];
    SetsBack(UsedSet(d, geo), Elems(mid[ino]), Elems(mid[dir]));
    assert SameBut(files, after, dir) by {
      assert SameBut(files[ino := mid[ino]], mid, dir);
    }
  }

  lemma SetsBack(u: set<nat>, a: set<nat>, b: set<nat>)
    requires u !! a && a !! b
    ensures u + a + b - a == u + b
  {
  }

  lemma MarksBack(d: Disk, m: Disk, e: Disk, geo: Geometry, ino: nat)
    requires MarkGained(d, m, geo, ino) && MarkLost(m, e, geo, ino) && !InoUsed(d, ino)
    ensures MarksKept(d, e, geo)
  {
    hide InoUsed, IsIno;
    forall j: nat | IsIno(geo, j)
      ensures InoUsed(e, j) <==> InoUsed(d, j)
    {
      assert InoUsed(m, j) <==> InoUsed(d, j) || j == ino;
    }
  }

  lemma SparedBack(d: Disk, m: Disk, e: Disk, files: FileMap, mid: FileMap, dir: nat, ino: nat)
    requires Spared(d, m, files, mid, dir, ino) && Spared(m, e, mid, mid - {ino}, dir, ino) && ino !in files
    ensures Spared(d, e, files, mid - {ino}, dir, dir)
  {
    SparedTrans(d, m, e, files, mid, mid - {ino}, dir, ino);
    hide FileKept;
  }

  lemma NextLink(x: nat)
    requires x < 0x1_0000
    ensures (x + 1) % 0x1_0000 == if x == 0xFFFF then 0 else x + 1
  {
  }

  lemma LinksBack(d: Disk, m: Disk, e: Disk, files: FileMap, mid: FileMap, dir: nat)
    requires ParentTally(d, m, files, mid, dir, 1) && LinkLost(m, e, dir)
    ensures dir >= 1 && InodeBlock(dir) < |d| == |e|
    ensures R16(InodeAt(e, dir), 26) == if R16(InodeAt(d, dir), 26) == 0xFFFF then 0 else R16(InodeAt(d, dir), 26)
  {
    LinksFit(InodeAt(d, dir));
    hide InodeAt, InodeBlock, R16, R32;
    NextLink(R16(InodeAt(d, dir), 26));
  }

  ghost predicate SmallCounts(dirs: seq<nat>) { forall g: nat :: g < |dirs| ==> dirs[g] + 1 < U32_LIMIT }

  lemma CountsBack(dirs: seq<nat>, more: seq<nat>, now: seq<nat>, g: nat)
    requires SmallCounts(dirs) && MoreDirs(dirs, more, g, 1) && OneDirLess(more, now, g)
    ensures now == dirs
  {
    forall h: nat | h < |dirs|
      ensures now[h] == dirs[h]
    {
      assert h == g ==> more[h] == dirs[h] + 1;
    }
  }

  lemma MadeState(d: Disk, geo: Geometry, csum: bool, files: FileMap, dir: nat, c: Catalog)
    requires Represents(d, geo, csum, files, dir, c)
    ensures DirState(d, geo, csum, files, dir)
  {
    hide DirState, ViewOf;
  }

  /** mkdir, then rmdir of the same name. */
  method MakeThenRemove(v: Device, dir: nat, name: seq<Byte>, ghost files: FileMap, ghost c: Catalog)
    returns (err: Option<FsErr>, ghost after: FileMap)
    requires v.Valid() && Represents(v.d, v.geo, v.csum, files, dir, c) && |name| < 256
    modifies v`d, v`log, v`dirs
    ensures v.Valid() && Represents(v.d, v.geo, v.csum, after, dir, c)
    ensures err == MkdirAnswer(old(v.d), v.geo, files, dir, c, name)
    ensures err.None? ==> Undone(old(v.d), v.d, v.geo, files, after, dir)
    ensures err.None? && SmallCounts(old(v.dirs)) ==> v.dirs == old(v.dirs)
  {
    hide DirState, ViewOf, Represents, UsedSet, Elems, Overwrite, BlocksOf, EmptyDir, Spared, TookDir, Gone,
         ParentTally, MarksKept, NewFailed, ShieldHolds, SoundBelow, LeadsAway, IsEmptyBelow, MoreDirs, OneDirLess,
         Undone, InodeGroup, MkdirAnswer, Counts, RmdirAnswers, SmallCounts, InoUsed, FreeSpace.FreeList, Head, FsOk,
         Accounting, Known, WithDir, WithoutDir, DirsMoved, NoInodeLeft;
    ghost var d, dirs := v.d, v.dirs;
    StateFs(d, v.geo, v.csum, files, dir) by {
      Sound(d, v.geo, v.csum, files, dir, c);
    }
    ghost var now;
    var child;
    err, after, now, child := MakeDirectory(v, dir, name, files, c, 0);
    if err.Some? {
      return;
    }
    ghost var m, mid, dirs1 := v.d, after, v.dirs;
    MadeState(m, v.geo, v.csum, mid, dir, now);
    LeadsNew(c, name, child);
    JustMade(d, m, v.geo, v.csum, files, mid, dir, c, name, child);
    ghost var last;
    var gone;
    var removed;
    removed, after, last, gone := RemoveDirectory(v, dir, name, mid, now);
    StateFs(m, v.geo, v.csum, mid, dir);
    SurelyRemoved(m, mid, now, name, removed);
    GroupOfIno(m, v.geo, v.csum, mid, child);
    NewName(d, v.geo, files, dir, c, name, child);
    UndoneIs(d, m, v.d, v.geo, files, mid, dir, child);
    if SmallCounts(dirs) {
      CountsBack(dirs, dirs1, v.dirs, InodeGroup(child));
    }
  }

  // ---- a directory that removes itself ----

  /** What an empty directory shows. */
  function DotCatalog(ino: nat, parent: nat): Catalog { Catalog(map[], AsMap(DotEntries(ino, parent))) }

  lemma DotLeads(ino: nat, parent: nat)
    ensures var c := DotCatalog(ino, parent); LeadsDown(c, DOT) && c.others[DOT].ino == ino
    ensures forall name :: !IsFile(AsMap(DotEntries(ino, parent)), name)
  {
    hide AsMap, DotEntries;
    DotsLead(ino, parent);
  }

  lemma EmptyShown(d: Disk, geo: Geometry, csum: bool, files: FileMap, ino: nat, parent: nat)
    requires FsOk(d, geo, csum, files) && EmptyDir(d, files, ino, parent)
    ensures Represents(d, geo, csum, files, ino, DotCatalog(ino, parent))
  {
    NewState(d, geo, csum, files, ino, parent);
    hide FsOk, IsDirectory, DirOk, DirectoryOps.Entries, Tallied, AsMap, DotEntries, DirState, LeadsDown, FileIs;
    DotLeads(ino, parent);
  }

  lemma EmptyInside(d: Disk, geo: Geometry, csum: bool, files: FileMap, ino: nat, parent: nat)
    requires FsOk(d, geo, csum, files) && EmptyDir(d, files, ino, parent)
    ensures var c := DotCatalog(ino, parent); SoundBelow(d, geo, csum, files, c, DOT) && IsEmptyBelow(d, files, c, DOT)
  {
    hide *;
    DotLeads(ino, parent);
    NewState(d, geo, csum, files, ino, parent);
    NewIsSound(d, geo, csum, files, DotCatalog(ino, parent), DOT, ino);
    NewIsEmpty(d, files, DotCatalog(ino, parent), DOT, ino, parent);
  }

  lemma OtherThan(d: Disk, e: Disk, geo: Geometry, files: FileMap, after: FileMap, dir: nat, ino: nat)
    requires TookDir(d, e, geo, files, after, dir, ino)
    ensures dir in after && ino != dir
  {
    hide UsedSet, Elems, MarkGained, InoUsed;
  }

  /** mkdir, and then rmdir of the one dot inside: nothing stops it, and the name in the parent leads to
      a free inode. */
  method RemoveItself(v: Device, dir: nat, name: seq<Byte>, ghost files: FileMap, ghost c: Catalog)
    returns (err: Option<FsErr>, again: Option<FsErr>, child: nat, ghost after: FileMap)
    requires v.Valid() && Represents(v.d, v.geo, v.csum, files, dir, c) && |name| < 256
    modifies v`d, v`log, v`dirs
    ensures v.Valid() && err == MkdirAnswer(old(v.d), v.geo, files, dir, c, name)
    ensures err.None? ==>
              && again == None && DirState(v.d, v.geo, v.csum, after, dir)
              && name in ViewOf(v.d, after, dir) && ViewOf(v.d, after, dir)[name] == Target(child, FT_DIR)
              && !InoUsed(v.d, child) && child !in after
  {
    hide DirState, ViewOf, Represents, UsedSet, Elems, Overwrite, BlocksOf, EmptyDir, Spared, TookDir, ParentTally,
         NewFailed, ShieldHolds, SoundBelow, IsEmptyBelow, MoreDirs, MkdirAnswer, Counts, RmdirAnswers, InoUsed,
         FreeSpace.FreeList, Head, FsOk, Accounting, Known, NoInodeLeft, RestKept, FileKept, LeadsDown, DotCatalog,
         MarkLost;
    again := None;
    ghost var now;
    err, after, now, child := MakeDirectory(v, dir, name, files, c, 0);
    if err.Some? {
      return;
    }
    ghost var m, mid := v.d, after;
    MadeState(m, v.geo, v.csum, mid, dir, now);
    StateFs(m, v.geo, v.csum, mid, dir);
    EmptyShown(m, v.geo, v.csum, mid, child, dir);
    EmptyInside(m, v.geo, v.csum, mid, child, dir);
    DotLeads(child, dir);
    ghost var inner := DotCatalog(child, dir);
    var gone;
    again, gone := Release(v, child, DOT, mid, inner);
    SurelyRemoved(m, mid, inner, DOT, again);
    after := mid - {child};
    OtherThan(old(v.d), m, v.geo, files, mid, dir, child);
    RestAt(m, v.d, mid, child, dir);
    DirStays(m, v.d, v.geo, v.csum, mid, after, dir);
  }
}
