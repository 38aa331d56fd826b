/** A run of commands after which mkdir loses an inode: on a full volume it takes an inode, finds no block,
    and leaves the inode in use. */
module LostInode {
  import opened Bytes
  import opened Collections
  import opened Wrappers
  import opened Disk
  import opened Extents
  import opened Volume
  import opened Inodes
  import opened InodeAlloc
  import opened Files
  import opened FileSystem
  import opened FreeSpace
  import opened FileWrite
  import opened DirectoryOps
  import opened DirCatalog
  import opened DirSteps
  import opened NamedFiles
  import opened Mkfs
  import opened Format
  import opened RootDir
  import opened Fragmented

  /** The smallest volume mkfs accepts. */
  const SMALL: Geometry := Geometry(1, 8192, true)

  lemma OneRun(s: nat, n: nat)
    requires 1 <= n <= 0x7FFF
    ensures |RunsOf(Consecutive(s, n))| == 1
  {
    var p, xs := Consecutive(s, n), [Extent(0, n, s)];
    hide Consecutive;
    assert RunOk(xs, p, 0);
    RunsUnique(xs, RunsOf(p), p);
  }

  /** All that is free is one run, so one file can have it. */
  lemma RestFits(used: set<nat>, t: nat, n: nat)
    requires Front(used, t, 8192) && t + n == 8192 && 1 <= n <= 0x7FFF
    ensures InLine(FreeList(used, 8192), Consecutive(t, n)) && Outcome(FreeList(used, 8192), n) == None
  {
    var p := Consecutive(t, n);
    forall x: nat | x <= p[n - 1]
      ensures x in used <==> x !in p
    {
      assert x >= t ==> p[x - t] == x;
    }
    hide Consecutive, RunsOf, FreeList, Outcome, Front;
    Lowest(used, 8192, p);
    OneRun(t, n);
    OutcomeDone(FreeList(used, 8192), p, n);
  }

  lemma {:induction false} NoneFree(now: set<nat>, lo: nat, hi: nat)
    requires forall x: nat :: lo <= x < hi ==> x in now
    ensures FreeFrom(now, lo, hi) == []
    decreases hi - lo
  {
    if lo < hi {
      NoneFree(now, lo + 1, hi);
    }
  }

  lemma NowFull(used: set<nat>, t: nat, n: nat)
    requires Front(used, t, 8192) && t + n == 8192
    ensures FreeList(used + Elems(Consecutive(t, n)), 8192) == []
  {
    var p := Consecutive(t, n);
    forall x: nat | x < 8192
      ensures x in used + Elems(p)
    {
      if x >= t {
        assert p[x - t] == x;
      }
    }
    hide Consecutive, FreeFrom;
    NoneFree(used + Elems(p), 0, 8192);
  }

  /** One file takes all the blocks that are left. */
  method FillVolume(v: Device, n: nat, ghost files: FileMap, ghost c: Catalog, ghost t: nat)
    returns (ghost after: FileMap, ghost now: Catalog)
    requires v.Valid() && v.geo == SMALL && Represents(v.d, v.geo, v.csum, files, ROOT_INO, c) && A in c.files
    requires Owns(v.d, files, A, []) && Front(UsedSet(v.d, v.geo), t, 8192) && t + n == 8192 && 1 <= n <= 0x7FFF
    modifies v`d, v`log, v`dirs
    ensures v.Valid() && Represents(v.d, v.geo, v.csum, after, ROOT_INO, now)
    ensures now == Stored(c, A, Zeros(4096 * n)) && FreeList(UsedSet(v.d, v.geo), 8192) == []
    ensures MarksKept(old(v.d), v.d, v.geo)
  {
    hide Represents, ViewOf, UsedSet, FreeList, Overwrite, BlocksOf, Answer, Allowed, ShieldHolds, Refilled, Owns,
         Front, Outcome, NumBlocks, MarksKept, Consecutive, InLine, NewFailed, Elems;
    ghost var d := v.d;
    FillAnswer(d, v.csum, files, c, t, n);
    WholeBlocks(n);
    var err;
    err, after, now := WriteFile(v, ROOT_INO, A, Zeros(4096 * n), files, c, JOURNAL_INO);
    StoredWhole(c, now, A, Zeros(4096 * n));
    Filled(d, v.d, v.csum, files, after, c, t, n);
  }

  lemma StoredWhole(c: Catalog, now: Catalog, name: seq<Byte>, data: seq<Byte>)
    requires Allowed(c, Write(name, data), None, now) && name !in c.others
    ensures now == Stored(c, name, data)
  {
  }

  lemma FillAnswer(d: Disk, csum: bool, files: FileMap, c: Catalog, t: nat, n: nat)
    requires Represents(d, SMALL, csum, files, ROOT_INO, c) && A in c.files && Owns(d, files, A, [])
    requires Front(UsedSet(d, SMALL), t, 8192) && t + n == 8192 && 1 <= n <= 0x7FFF
    ensures A !in c.others
    ensures forall data: seq<Byte> :: NumBlocks(|data|) == n ==>
              Answer(d, SMALL, files, ROOT_INO, c, Write(A, data)).0 == None
  {
    hide ViewOf, DirState, FileIs, UsedSet, FreeList, Outcome, NumBlocks, Front, Consecutive;
    ContentsOf(d, SMALL, csum, files, ROOT_INO, c, A);
    RestFits(UsedSet(d, SMALL), t, n);
    NoElems();
    assert UsedSet(d, SMALL) - {} == UsedSet(d, SMALL);
  }

  lemma Filled(d: Disk, e: Disk, csum: bool, files: FileMap, after: FileMap, c: Catalog, t: nat, n: nat)
    requires Represents(d, SMALL, csum, files, ROOT_INO, c) && Owns(d, files, A, []) && A in c.files
    requires Front(UsedSet(d, SMALL), t, 8192) && t + n == 8192 && 1 <= n <= 0x7FFF
    requires Refilled(d, e, SMALL, files, after, ROOT_INO, A, n, None)
    ensures FreeList(UsedSet(e, SMALL), 8192) == [] && MarksKept(d, e, SMALL)
  {
    hide ViewOf, Represents, UsedSet, FreeList, Front, Placed, InLine, Elems, Consecutive, MarksKept;
    var ino, p := ViewOf(d, files, ROOT_INO)[A].ino, Consecutive(t, n);
    RestFits(UsedSet(d, SMALL), t, n);
    NoElems();
    assert UsedSet(d, SMALL) - {} == UsedSet(d, SMALL);
    TurnPlaced(d, e, SMALL, files, after, ino, [], p);
    NowFull(UsedSet(d, SMALL), t, n);
  }

  lemma NamesThen(c: Catalog, data: seq<Byte>)
    requires !Known(c, B)
    ensures !Known(Stored(Stored(c, A, []), A, data), B) && A in Stored(c, A, []).files
  {
  }

  lemma TouchedOwns(d: Disk, e: Disk, geo: Geometry, files: FileMap, after: FileMap, name: seq<Byte>)
    requires Touched(d, e, geo, files, after, ROOT_INO, name)
    ensures Owns(e, after, name, [])
  {
    hide ViewOf, MarkGained, UsedSet, UsedThen;
  }

  lemma StillLeft(d: Disk, e: Disk, geo: Geometry)
    requires MarksKept(d, e, geo) && !NoInodeLeft(d, geo)
    ensures !NoInodeLeft(e, geo)
  {
    hide Marked;
    var j: nat :| IsIno(geo, j) && !InoUsed(d, j);
    assert InoUsed(e, j) <==> InoUsed(d, j);
  }

  lemma FrontAt(d: Disk, geo: Geometry, t: nat)
    requires Front(UsedSet(d, geo), t, 8192) && geo.total == 8192
    ensures Used(d, 1548) <==> 1548 < t
  {
    hide Used;
    assert 1548 in UsedSet(d, geo) <==> Used(d, 1548);
  }

  /** mkfs on the smallest volume, a file with all its free blocks, and a mkdir: refused, with an inode lost. */
  method LosesAnInode(v: Device) returns (err: Option<FsErr>, ghost d: Disk, ghost files: FileMap, ghost c: Catalog)
    requires v.Valid() && v.making && v.geo == SMALL && |v.d| == 8192
    modifies v`d, v`log, v`dirs
    ensures v.Valid() && Represents(d, v.geo, v.csum, files, ROOT_INO, c) && !Known(c, B)
    ensures err == Some(NoSpace) && InodeLost(d, v.d, v.geo, files, ViewOf(d, files, ROOT_INO))
  {
    SmallFits();
    hide Formatted, RingLeft, Overwrite, BlocksOf, Front, UsedSet, Represents, Touched, NoInodeLeft, Known, RootCatalog,
         FreshInos, FreshBlocks, ValidGeo, Stored, Owns, MarksKept, InodeLost, FreeList, ViewOf;
    var done, inos;
    done, inos, files := FormatVolume(v);
    ghost var f := v.d;
    StartFacts(f, v.geo, v.csum, files, inos, 8192);
    ghost var c0 := RootCatalog(inos);
    ghost var f1, c1, t := TouchNew(v, A, files, c0, 1548, 8192);
    ghost var m := v.d;
    TouchedFacts(f, m, v.geo, files, f1, A);
    TouchedOwns(f, m, v.geo, files, f1, A);
    InodesLeft(f, m, v.geo, ViewOf(m, f1, ROOT_INO)[A].ino);
    FrontAt(m, v.geo, t);
    var n := if Used(v.d, 1548) then 6643 else 6644;
    NamesThen(c0, Zeros(4096 * n));
    files, c := FillVolume(v, n, f1, c1, t);
    d := v.d;
    StillLeft(m, d, v.geo);
    ghost var after, now;
    var ino;
    err, after, now, ino := MakeDirectory(v, ROOT_INO, B, files, c, JOURNAL_INO);
  }

  lemma SmallFits()
    ensures ValidGeo(SMALL) && Told(SMALL) && FormatAnswer(SMALL).None? && GroupBlocks(SMALL, 0) == 8192
  {
  }
}
