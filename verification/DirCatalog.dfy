/** A directory as its user sees it: the contents of every file by name, and the entries that are
    not files; and what the steps of a command do to that view. */
module DirCatalog {
  import opened Bytes
  import opened Collections
  import opened Wrappers
  import opened Disk
  import Bitmap
  import Extents
  import opened Volume
  import opened Inodes
  import opened InodeAlloc
  import opened Files
  import opened FileSystem
  import opened FileWrite
  import opened Directory
  import opened DirectoryOps

  const FT_FILE: Byte := 1

  /** The files by name with their contents, and all other entries with what they lead to. */
  datatype Catalog = Catalog(files: map<seq<Byte>, seq<Byte>>, others: DirMap)

  // ---- the catalog a directory stands for ----

  /** The volume is sound, `dir` is a directory of it, and it shows this catalog. */
  ghost predicate Represents(d: Disk, geo: Geometry, csum: bool, files: FileMap, dir: nat, c: Catalog) {
    DirState(d, geo, csum, files, dir) && Matches(ViewOf(d, files, dir), c)
      && HasContents(d, files, dir, ViewOf(d, files, dir), c)
  }

  predicate IsFile(view: DirMap, name: seq<Byte>) { name in view && view[name].ftype == FT_FILE }

  /** The names agree, and no two files share an inode. */
  ghost predicate Matches(view: DirMap, c: Catalog) {
    && (forall name :: name in c.files <==> IsFile(view, name))
    && (forall name :: name in c.others <==> name in view && !IsFile(view, name))
    && (forall name :: name in c.others ==> c.others[name] == view[name])
    && (forall a, b :: IsFile(view, a) && IsFile(view, b) && a != b ==> view[a].ino != view[b].ino)
  }

  ghost predicate HasContents(d: Disk, files: FileMap, dir: nat, view: DirMap, c: Catalog) {
    forall name :: name in c.files && IsFile(view, name) ==> FileIs(d, files, dir, view[name].ino, c.files[name])
  }

  /** The inode is in use, is not the directory, and its file has these contents. */
  ghost predicate FileIs(d: Disk, files: FileMap, dir: nat, ino: nat, data: seq<Byte>) {
    ino in files && ino != dir && FileHolds(d, ino, files[ino], data)
  }

  // ---- what the commands do to a catalog ----

  function Stored(c: Catalog, name: seq<Byte>, data: seq<Byte>): Catalog { c.(files := c.files[name := data]) }

  function Dropped(c: Catalog, name: seq<Byte>): Catalog { c.(files := c.files - {name}) }

  /** The entry of `from`, whatever it is, is now called `to`. */
  function Renamed(c: Catalog, from: seq<Byte>, to: seq<Byte>): Catalog {
    if from in c.files then c.(files := c.files[to := c.files[from]] - {from})
    else if from in c.others then c.(others := c.others[to := c.others[from]] - {from})
    else c
  }

  // ---- files a step does not touch ----

  ghost predicate FileKept(d: Disk, e: Disk, p: seq<nat>, j: nat) {
    SameInode(d, e, j) && forall x :: x in p ==> SameBlock(d, e, x)
  }

  /** Every file but `dir` and `ino` keeps its blocks, its inode and what is in them. */
  ghost predicate Spared(d: Disk, e: Disk, files: FileMap, after: FileMap, dir: nat, ino: nat) {
    forall j :: j in files && j != dir && j != ino ==> j in after && after[j] == files[j] && FileKept(d, e, files[j], j)
  }

  lemma SparedTrans(d: Disk, e: Disk, f: Disk, files: FileMap, mid: FileMap, after: FileMap, dir: nat, ino: nat)
    requires Spared(d, e, files, mid, dir, ino) && Spared(e, f, mid, after, dir, ino)
    ensures Spared(d, f, files, after, dir, ino)
  {
    hide InodeAt, InodeBlock;
    forall j | j in files && j != dir && j != ino
      ensures j in after && after[j] == files[j] && FileKept(d, f, files[j], j)
    {
      assert FileKept(d, e, files[j], j) && FileKept(e, f, mid[j], j);
      KeptTrans(d, e, f, files[j], j);
    }
  }

  lemma KeptTrans(d: Disk, e: Disk, f: Disk, p: seq<nat>, j: nat)
    requires FileKept(d, e, p, j) && FileKept(e, f, p, j)
    ensures FileKept(d, f, p, j)
  {
    hide InodeAt, InodeBlock;
    forall x | x in p
      ensures SameBlock(d, f, x)
    {
      assert SameBlock(d, e, x) && SameBlock(e, f, x);
    }
  }

  /** What the operations on one inode promise about all others. */
  lemma KeptFile(d: Disk, e: Disk, geo: Geometry, csum: bool, files: FileMap, i: nat, j: nat)
    requires FsOk(d, geo, csum, files) && OthersKept(d, e, geo, i, Kept(files, i)) && j in files && j != i
    ensures FileKept(d, e, files[j], j)
  {
    hide Accounting, MetaUsed, Extents.Holds, CsumOk, OwnBlocks, InodeAt, InodeBlock, SameMaps, InoUsed;
    assert FileOk(d, geo, csum, j, files[j]);
    forall x | x in files[j]
      ensures SameBlock(d, e, x)
    {
      assert x in Kept(files, i);
    }
  }

  lemma SparedBy(d: Disk, e: Disk, geo: Geometry, csum: bool, files: FileMap, after: FileMap, dir: nat, ino: nat,
                 i: nat)
    requires FsOk(d, geo, csum, files) && OthersKept(d, e, geo, i, Kept(files, i)) && i in {dir, ino}
    requires forall j :: j in files && j != dir && j != ino ==> j in after && after[j] == files[j]
    ensures Spared(d, e, files, after, dir, ino)
  {
    hide FsOk, OthersKept, Kept, FileKept;
    forall j | j in files && j != dir && j != ino
      ensures FileKept(d, e, files[j], j)
    {
      KeptFile(d, e, geo, csum, files, i, j);
    }
  }

  lemma SparedSame(d: Disk, geo: Geometry, csum: bool, files: FileMap, dir: nat, ino: nat)
    requires FsOk(d, geo, csum, files)
    ensures Spared(d, d, files, files, dir, ino)
  {
    assert Accounting(d, geo) ==> ValidGeo(geo) && geo.total <= |d|;
    KeptFacts(d, geo, csum, files, dir);
    OthersRefl(d, geo, dir, Kept(files, dir));
    hide FsOk, OthersKept, Kept;
    SparedBy(d, d, geo, csum, files, files, dir, ino, dir);
  }

  /** A directory whose inode and blocks were kept is as before. */
  lemma DirStays(d: Disk, e: Disk, geo: Geometry, csum: bool, files: FileMap, after: FileMap, dir: nat)
    requires DirState(d, geo, csum, files, dir) && FileKept(d, e, files[dir], dir)
    requires FsOk(e, geo, csum, after) && dir in after && after[dir] == files[dir]
    ensures DirState(e, geo, csum, after, dir) && ViewOf(e, after, dir) == ViewOf(d, files, dir)
  {
    hide FsOk, InodeAt, InodeBlock, Entries, Mode, Size, AsMap, DirOk, FileKept, DistinctNames;
    KeptDirectory(d, e, files[dir], dir);
  }

  /** A kept directory has the same entries. */
  lemma KeptDirectory(d: Disk, e: Disk, p: seq<nat>, dir: nat)
    requires FileKept(d, e, p, dir) && DirOk(d, p)
    ensures DirOk(e, p) && Entries(e, p) == Entries(d, p) && (IsDirectory(d, dir, p) ==> IsDirectory(e, dir, p))
  {
    hide InodeAt, InodeBlock, Entries, BlockOk, Mode, Size;
    forall i: nat | i < |p|
      ensures p[i] < |d| && e[p[i]] == d[p[i]] && DirBlockOk(e, p, i)
    {
      assert DirBlockOk(d, p, i);
      assert p[i] in p;
      assert SameBlock(d, e, p[i]);
    }
    assert SameInode(d, e, dir);
    SameEntries(d, e, p);
  }

  /** An operation on another inode leaves the directory. */
  lemma DirUntouched(d: Disk, e: Disk, geo: Geometry, csum: bool, files: FileMap, after: FileMap, dir: nat, i: nat)
    requires DirState(d, geo, csum, files, dir) && dir != i && OthersKept(d, e, geo, i, Kept(files, i))
    requires FsOk(e, geo, csum, after) && dir in after && after[dir] == files[dir]
    ensures DirState(e, geo, csum, after, dir) && ViewOf(e, after, dir) == ViewOf(d, files, dir)
  {
    StateFs(d, geo, csum, files, dir);
    KeptFile(d, e, geo, csum, files, i, dir);
    DirStays(d, e, geo, csum, files, after, dir);
  }

  lemma StateFs(d: Disk, geo: Geometry, csum: bool, files: FileMap, dir: nat)
    requires DirState(d, geo, csum, files, dir)
    ensures FsOk(d, geo, csum, files) && dir in files && Accounting(d, geo)
  {
    hide Accounting, IsDirectory, DirOk, Entries;
  }

  /** An untouched file still has its contents. */
  lemma FileStays(d: Disk, e: Disk, files: FileMap, after: FileMap, dir: nat, ino: nat, j: nat, data: seq<Byte>)
    requires Spared(d, e, files, after, dir, ino) && FileIs(d, files, dir, j, data) && j != ino
    ensures FileIs(e, after, dir, j, data)
  {
    hide InodeAt, InodeBlock, IsRegular, Size;
    var p := files[j];
    assert FileKept(d, e, p, j);
    forall k: nat | k < |data|
      ensures ByteAt(e, p, k, data[k])
    {
      assert ByteAt(d, p, k, data[k]);
      assert p[k / 4096] in p;
      assert SameBlock(d, e, p[k / 4096]);
    }
  }

  // ---- the file system without one of its files ----

  /** Once the blocks of a file are free, the rest of the file system is sound without it. */
  lemma FsWithout(d: Disk, e: Disk, geo: Geometry, csum: bool, files: FileMap, ino: nat)
    requires FsOk(d, geo, csum, files) && Accounting(e, geo) && MetaUsed(e, geo)
    requires OthersKept(d, e, geo, ino, Kept(files, ino)) && Kept(files, ino) <= UsedSet(e, geo)
    ensures FsOk(e, geo, csum, files - {ino})
  {
    hide SameMaps, Marked, InodeBlock, IsIno, Accounting, Used, MetaUsed, UsedSet, Distinct, Extents.Holds, CsumOk,
         InodeAt, AreaOf;
    var after := files - {ino};
    forall j | j in after
      ensures FileOk(e, geo, csum, j, after[j]) && InoUsed(e, j)
    {
      assert FileOk(d, geo, csum, j, files[j]) && SameInode(d, e, j);
      StaysInUse(d, e, geo, j);
      assert Elems(files[j]) <= Kept(files, ino);
    }
  }

  // ---- marking and unmarking inodes ----

  lemma RemarkedSet(d: Disk, geo: Geometry, ino: nat, on: bool, csum: bool)
    requires Remarkable(d, ino)
    ensures UsedSet(Remarked(d, ino, on, csum), geo) == UsedSet(d, geo)
    ensures MetaUsed(d, geo) ==> MetaUsed(Remarked(d, ino, on, csum), geo)
  {
    hide Used, Remarked, Remarkable, IsMeta;
    forall x: nat
      ensures Used(Remarked(d, ino, on, csum), x) <==> Used(d, x)
    {
      RemarkedUse(d, ino, on, csum, x);
    }
  }

  /** Inodes and file blocks are not what alloc_inode and free_inode write. */
  lemma RemarkedFile(d: Disk, geo: Geometry, csum: bool, p: seq<nat>, j: nat, ino: nat, on: bool)
    requires ValidGeo(geo) && geo.total <= |d| && FileOk(d, geo, csum, j, p) && ino >= 1 && Remarkable(d, ino)
    ensures FileKept(d, Remarked(d, ino, on, csum), p, j)
  {
    hide Remarked, Remarkable, Used, IsIno, InodeBlock, Extents.Holds, CsumOk, AreaOf;
    var e := Remarked(d, ino, on, csum);
    InoIs(geo, j);
    MapPlace(InodeGroup(ino));
    RemarkFrame(d, ino, on, csum, InodeBlock(j));
    forall x | x in p
      ensures SameBlock(d, e, x)
    {
      assert x in Elems(p) && x in UsedSet(d, geo);
      BeyondBoot(x);
      RemarkFrame(d, ino, on, csum, x);
    }
  }

  lemma MapPlace(g: nat)
    ensures BitOf(InodeMapBlock(g)) == 3
  {
    PartsBlock(g, 3);
  }

  lemma RemarkedOk(d: Disk, geo: Geometry, csum: bool, p: seq<nat>, j: nat, ino: nat, on: bool)
    requires ValidGeo(geo) && geo.total <= |d| && FileOk(d, geo, csum, j, p) && ino >= 1 && Remarkable(d, ino)
      && InoUsed(d, j) && j != ino
    ensures FileOk(Remarked(d, ino, on, csum), geo, csum, j, p) && InoUsed(Remarked(d, ino, on, csum), j)
  {
    hide Remarked, Remarkable, Used, IsIno, InodeBlock, InodeAt, Extents.Holds, CsumOk, AreaOf, Marked, UsedSet;
    RemarkedFile(d, geo, csum, p, j, ino, on);
    RemarkedSet(d, geo, ino, on, csum);
    RemarkedMarks(d, ino, on, csum, j);
    assert SameInode(d, Remarked(d, ino, on, csum), j);
  }

  /** Marking or unmarking an inode that is no file's. */
  lemma RemarkedFs(d: Disk, geo: Geometry, csum: bool, files: FileMap, ino: nat, on: bool)
    requires FsOk(d, geo, csum, files) && IsIno(geo, ino) && Remarkable(d, ino) && Marked(d, ino) != on && ino !in files
    ensures FsOk(Remarked(d, ino, on, csum), geo, csum, files)
    ensures forall j :: j in files ==> FileKept(d, Remarked(d, ino, on, csum), files[j], j)
  {
    assert ino >= 1;
    hide *;
    FsParts(d, geo, csum, files);
    RemarkKeepsAccounting(d, geo, ino, on, csum);
    RemarkedSet(d, geo, ino, on, csum);
    var e := Remarked(d, ino, on, csum);
    forall j | j in files
      ensures FileOk(e, geo, csum, j, files[j]) && InoUsed(e, j) && FileKept(d, e, files[j], j)
    {
      FsFile(d, geo, csum, files, j);
      RemarkedOk(d, geo, csum, files[j], j, ino, on);
      RemarkedFile(d, geo, csum, files[j], j, ino, on);
    }
    FsAgain(d, e, geo, csum, files);
  }

  lemma FsFile(d: Disk, geo: Geometry, csum: bool, files: FileMap, j: nat)
    requires FsOk(d, geo, csum, files) && j in files
    ensures FileOk(d, geo, csum, j, files[j]) && InoUsed(d, j)
  {
    hide Accounting, MetaUsed, FileOk, InoUsed, Elems;
  }

  lemma FsAgain(d: Disk, e: Disk, geo: Geometry, csum: bool, files: FileMap)
    requires FsOk(d, geo, csum, files) && Accounting(e, geo) && MetaUsed(e, geo)
    requires forall j :: j in files ==> FileOk(e, geo, csum, j, files[j]) && InoUsed(e, j)
    ensures FsOk(e, geo, csum, files)
  {
    hide Accounting, MetaUsed, FileOk, InoUsed, Elems;
  }

  lemma SparedAll(d: Disk, e: Disk, files: FileMap, dir: nat, ino: nat)
    requires forall j :: j in files ==> FileKept(d, e, files[j], j)
    ensures Spared(d, e, files, files, dir, ino)
  {
    hide FileKept;
  }

  lemma RemarkedState(d: Disk, geo: Geometry, csum: bool, files: FileMap, dir: nat, ino: nat, on: bool)
    requires DirState(d, geo, csum, files, dir) && IsIno(geo, ino) && Remarkable(d, ino) && Marked(d, ino) != on
      && ino !in files
    ensures var e := Remarked(d, ino, on, csum);
      && DirState(e, geo, csum, files, dir) && ViewOf(e, files, dir) == ViewOf(d, files, dir)
      && Spared(d, e, files, files, dir, ino)
  {
    StateFs(d, geo, csum, files, dir);
    hide *;
    var e := Remarked(d, ino, on, csum);
    RemarkedFs(d, geo, csum, files, ino, on);
    DirStays(d, e, geo, csum, files, files, dir);
    SparedAll(d, e, files, dir, ino);
  }

  /** A free inode is no file's. */
  lemma FreeIsNobodys(d: Disk, geo: Geometry, csum: bool, files: FileMap, ino: nat)
    requires FsOk(d, geo, csum, files) && ino >= 1 && !Marked(d, ino)
    ensures ino !in files
  {
    hide Marked, Accounting, MetaUsed, FileOk;
    assert ino in files ==> InoUsed(d, ino);
  }

  // ---- the catalog after a step ----

  lemma ContentsOf(d: Disk, geo: Geometry, csum: bool, files: FileMap, dir: nat, c: Catalog, name: seq<Byte>)
    requires Represents(d, geo, csum, files, dir, c)
    ensures var view := ViewOf(d, files, dir);
      && (name in c.files <==> IsFile(view, name)) && (name in c.others <==> name in view && !IsFile(view, name))
      && (name in c.files ==> FileIs(d, files, dir, view[name].ino, c.files[name]))
  {
    hide DirState, ViewOf, FileIs;
  }

  /** The same names; the contents of all files kept. */
  lemma NothingShown(d: Disk, e: Disk, geo: Geometry, csum: bool, files: FileMap, after: FileMap, dir: nat, ino: nat,
                     c: Catalog)
    requires Represents(d, geo, csum, files, dir, c) && DirState(e, geo, csum, after, dir)
    requires ViewOf(e, after, dir) == ViewOf(d, files, dir) && Spared(d, e, files, after, dir, ino)
      && (ino !in files || ino == dir)
    ensures Represents(e, geo, csum, after, dir, c)
  {
    hide DirState, ViewOf, FileIs, Spared;
    var view := ViewOf(d, files, dir);
    forall name | name in c.files && IsFile(view, name)
      ensures FileIs(e, after, dir, view[name].ino, c.files[name])
    {
      InFiles(d, files, dir, view[name].ino, c.files[name]);
      FileStays(d, e, files, after, dir, ino, view[name].ino, c.files[name]);
    }
  }

  lemma InFiles(d: Disk, files: FileMap, dir: nat, ino: nat, data: seq<Byte>)
    requires FileIs(d, files, dir, ino, data)
    ensures ino in files && ino != dir
  {
  }

  /** A file got new contents, under an old or a new name. */
  lemma StoredShown(d: Disk, e: Disk, geo: Geometry, csum: bool, files: FileMap, after: FileMap, dir: nat, ino: nat,
                    c: Catalog,
                    name: seq<Byte>, data: seq<Byte>)
    requires Represents(d, geo, csum, files, dir, c) && DirState(e, geo, csum, after, dir)
    requires var view := ViewOf(d, files, dir);
             if IsFile(view, name) then view[name].ino == ino else name !in view && ino !in files
    requires ViewOf(e, after, dir) == ViewOf(d, files, dir)[name := Target(ino, FT_FILE)]
    requires Spared(d, e, files, after, dir, ino) && FileIs(e, after, dir, ino, data)
    ensures Represents(e, geo, csum, after, dir, Stored(c, name, data))
  {
    hide DirState, ViewOf, FileIs, Spared;
    var view, now, c2 := ViewOf(d, files, dir), ViewOf(e, after, dir), Stored(c, name, data);
    forall a | a in c.files && IsFile(view, a)
      ensures view[a].ino in files
    {
      InFiles(d, files, dir, view[a].ino, c.files[a]);
    }
    StoredMatches(view, c, name, ino, data);
    forall a | a in c2.files && IsFile(now, a)
      ensures FileIs(e, after, dir, now[a].ino, c2.files[a])
    {
      if a != name {
        FileStays(d, e, files, after, dir, ino, view[a].ino, c.files[a]);
      }
    }
  }

  lemma StoredMatches(view: DirMap, c: Catalog, name: seq<Byte>, ino: nat, data: seq<Byte>)
    requires Matches(view, c) && (name !in view || IsFile(view, name))
    requires forall a :: IsFile(view, a) && a != name ==> view[a].ino != ino
    ensures Matches(view[name := Target(ino, FT_FILE)], Stored(c, name, data))
  {
  }

  /** A file is gone with its name. */
  lemma DroppedShown(d: Disk, e: Disk, geo: Geometry, csum: bool, files: FileMap, after: FileMap, dir: nat, ino: nat,
                     c: Catalog, name: seq<Byte>)
    requires Represents(d, geo, csum, files, dir, c) && DirState(e, geo, csum, after, dir)
    requires var view := ViewOf(d, files, dir);
             IsFile(view, name) && view[name].ino == ino && ViewOf(e, after, dir) == view - {name}
    requires Spared(d, e, files, after, dir, ino)
    ensures Represents(e, geo, csum, after, dir, Dropped(c, name))
  {
    hide DirState, ViewOf, FileIs, Spared;
    var view, now, c2 := ViewOf(d, files, dir), ViewOf(e, after, dir), Dropped(c, name);
    forall a | a in c2.files && IsFile(now, a)
      ensures FileIs(e, after, dir, now[a].ino, c2.files[a])
    {
      assert a in c.files && IsFile(view, a);
      FileStays(d, e, files, after, dir, ino, view[a].ino, c.files[a]);
    }
  }

  /** An entry has another name. */
  lemma RenamedShown(d: Disk, e: Disk, geo: Geometry, csum: bool, files: FileMap, after: FileMap, dir: nat, c: Catalog,
                     from: seq<Byte>, to: seq<Byte>)
    requires Represents(d, geo, csum, files, dir, c) && DirState(e, geo, csum, after, dir)
    requires var view := ViewOf(d, files, dir);
             from in view && to !in view && ViewOf(e, after, dir) == view[to := view[from]] - {from}
    requires Spared(d, e, files, after, dir, dir)
    ensures Represents(e, geo, csum, after, dir, Renamed(c, from, to))
  {
    hide DirState, ViewOf, FileIs, Spared;
    var view, now, c2 := ViewOf(d, files, dir), ViewOf(e, after, dir), Renamed(c, from, to);
    forall a | a in c2.files && IsFile(now, a)
      ensures FileIs(e, after, dir, now[a].ino, c2.files[a])
    {
      MovedAt(view, from, to, a);
      var b := if a == to then from else a;
      assert b in c.files && IsFile(view, b) && now[a] == view[b] && c2.files[a] == c.files[b];
      InFiles(d, files, dir, view[b].ino, c.files[b]);
      FileStays(d, e, files, after, dir, dir, view[b].ino, c.files[b]);
    }
    RenamedMatches(view, c, from, to);
  }

  lemma MovedAt(view: DirMap, from: seq<Byte>, to: seq<Byte>, a: seq<Byte>)
    requires from in view && to !in view
    ensures var now, b := view[to := view[from]] - {from}, if a == to then from else a;
      (a in now <==> b in view && a != from) && (a in now ==> now[a] == view[b])
  {
  }

  lemma RenamedMatches(view: DirMap, c: Catalog, from: seq<Byte>, to: seq<Byte>)
    requires Matches(view, c) && from in view && to !in view
    ensures Matches(view[to := view[from]] - {from}, Renamed(c, from, to))
  {
    var now, c2 := view[to := view[from]] - {from}, Renamed(c, from, to);
    forall a
      ensures a in c2.files <==> IsFile(now, a)
      ensures a in c2.others <==> a in now && !IsFile(now, a)
      ensures a in c2.others ==> c2.others[a] == now[a]
    {
      MovedAt(view, from, to, a);
    }
    forall a, b | IsFile(now, a) && IsFile(now, b) && a != b
      ensures now[a].ino != now[b].ino
    {
      MovedAt(view, from, to, a);
      MovedAt(view, from, to, b);
    }
  }
}
