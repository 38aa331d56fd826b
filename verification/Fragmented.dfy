/** A run of commands after which write_file loses a block: two files of a new file system grow in turn,
    so each gets every second block, and the fifth block of the first makes a fifth run. */
module Fragmented {
  import opened Bytes
  import opened Collections
  import opened Wrappers
  import opened Disk
  import opened Extents
  import opened Volume
  import opened Inodes
  import opened InodeAlloc
  import opened Files
  import opened FileSystem
  import opened FreeSpace
  import opened FileWrite
  import opened Directory
  import opened DirectoryOps
  import opened DirCatalog
  import opened DirSteps
  import opened NamedFiles
  import opened Mkfs
  import opened Format
  import opened RootDir

  const A: seq<Byte> := [0x61]
  const B: seq<Byte> := [0x62]

  /** Below this block of the first group, everything is known. */
  const SEEN: nat := 1570

  // ---- every second block ----

  /** `n` blocks from `t` on, every second one. */
  function Apart(t: nat, n: nat): (p: seq<nat>)
    ensures |p| == n && forall i :: 0 <= i < n ==> p[i] == t + 2 * i
  {
    if n == 0 then [] else Apart(t, n - 1) + [t + 2 * (n - 1)]
  }

  predicate IsApart(t: nat, n: nat, x: nat) { t <= x < t + 2 * n && (x - t) % 2 == 0 }

  lemma ApartHas(t: nat, n: nat, x: nat)
    ensures x in Apart(t, n) <==> IsApart(t, n, x)
  {
    if t <= x < t + 2 * n && (x - t) % 2 == 0 {
      assert Apart(t, n)[(x - t) / 2] == x;
    }
  }

  /** The lowest free blocks, if they are these. */
  lemma {:induction false} Lowest(used: set<nat>, total: nat, p: seq<nat>)
    requires forall i, j :: 0 <= i < j < |p| ==> p[i] < p[j]
    requires p != [] ==> p[|p| - 1] < total
    requires forall x: nat :: p != [] && x <= p[|p| - 1] ==> (x in used <==> x !in p)
    ensures InLine(FreeList(used, total), p)
    decreases |p|
  {
    hide FreeList;
    if p != [] {
      var m := |p| - 1;
      var q, blk := p[..m], p[m];
      assert q + [blk] == p;
      assert forall x: nat :: x in p <==> x in q || x == blk;
      Lowest(used, total, q);
      NextInLine(FreeList(used, total), q, used, total, blk);
    }
  }

  lemma {:induction false} FewRuns(p: seq<nat>)
    ensures |RunsOf(p)| <= |p|
    decreases |p|
  {
    if p != [] {
      FewRuns(p[..|p| - 1]);
    }
  }

  lemma FiveRuns(t: nat)
    ensures |RunsOf(Apart(t, 5))| == 5
  {
    var p := Apart(t, 5);
    var xs := [Extent(0, 1, t), Extent(1, 1, t + 2), Extent(2, 1, t + 4), Extent(3, 1, t + 6), Extent(4, 1, t + 8)];
    forall i: nat | i < |xs|
      ensures RunOk(xs, p, i)
    {
    }
    RunsUnique(xs, RunsOf(p), p);
  }

  // ---- two files growing in turn ----

  /** File `name` has the blocks `p`, file `other` the blocks `q`; up to `SEEN`, only these and the blocks
      in front of `t` are used. */
  ghost predicate Two(d: Disk, geo: Geometry, csum: bool, files: FileMap, c: Catalog, name: seq<Byte>, p: seq<nat>,
                      other: seq<Byte>, q: seq<nat>, t: nat) {
    && Represents(d, geo, csum, files, ROOT_INO, c) && name in c.files && other in c.files && name != other
    && Owns(d, files, name, p) && Owns(d, files, other, q) && OnlyThese(UsedSet(d, geo), t, p, q)
    && t + 12 <= SEEN <= geo.total
  }

  ghost predicate Owns(d: Disk, files: FileMap, name: seq<Byte>, p: seq<nat>) {
    var view := ViewOf(d, files, ROOT_INO);
    name in view && view[name].ino in files && files[view[name].ino] == p
  }

  ghost predicate OnlyThese(used: set<nat>, t: nat, p: seq<nat>, q: seq<nat>) {
    forall x: nat :: x < SEEN ==> (x in used <==> x < t || x in p || x in q)
  }

  lemma TurnAt(used: set<nat>, t: nat, o: nat, n: nat, x: nat)
    requires o <= 1 && n <= 4 && t + 12 <= SEEN && x <= t + o + 2 * n
    requires OnlyThese(used, t, Apart(t + o, n), Apart(t + 1 - o, n + o))
    ensures x in used - Elems(Apart(t + o, n)) <==> x !in Apart(t + o, n + 1)
  {
    ApartHas(t + o, n, x);
    ApartHas(t + 1 - o, n + o, x);
    ApartHas(t + o, n + 1, x);
    Parity(t, o, n, x);
    These(used, t, Apart(t + o, n), Apart(t + 1 - o, n + o), x);
    hide *;
  }

  lemma These(used: set<nat>, t: nat, p: seq<nat>, q: seq<nat>, x: nat)
    requires OnlyThese(used, t, p, q) && x < SEEN
    ensures x in used <==> x < t || x in p || x in q
    ensures x in Elems(p) <==> x in p
  {
  }

  lemma Parity(t: nat, o: nat, n: nat, x: nat)
    requires o <= 1 && x <= t + o + 2 * n
    ensures IsApart(t + o, n + 1, x) <==> !(x < t || IsApart(t + 1 - o, n + o, x))
    ensures IsApart(t + o, n, x) ==> IsApart(t + o, n + 1, x)
  {
    if o == 0 {
      assert x >= t + 1 ==> (x - t) % 2 != (x - (t + 1)) % 2;
    } else {
      assert x >= t + 1 ==> (x - t) % 2 != (x - (t + 1)) % 2;
    }
  }

  /** One file is at its turn: its old blocks released, every second block is free. */
  lemma TurnFree(used: set<nat>, total: nat, t: nat, o: nat, n: nat)
    requires o <= 1 && n <= 4 && t + 12 <= SEEN <= total
    requires OnlyThese(used, t, Apart(t + o, n), Apart(t + 1 - o, n + o))
    ensures InLine(FreeList(used - Elems(Apart(t + o, n)), total), Apart(t + o, n + 1))
  {
    var p, q, r := Apart(t + o, n), Apart(t + 1 - o, n + o), Apart(t + o, n + 1);
    var rest := used - Elems(p);
    hide Apart, FreeList, InLine, OnlyThese, Elems;
    forall x: nat | x <= r[n]
      ensures x in rest <==> x !in r
    {
      TurnAt(used, t, o, n, x);
    }
    Lowest(rest, total, r);
  }

  lemma TurnAnswer(used: set<nat>, total: nat, t: nat, o: nat, n: nat)
    requires o <= 1 && n <= 4 && t + 12 <= SEEN <= total
    requires OnlyThese(used, t, Apart(t + o, n), Apart(t + 1 - o, n + o))
    ensures var free := FreeList(used - Elems(Apart(t + o, n)), total);
      && (n < 4 ==> Outcome(free, n + 1) == None)
      && (n == 4 ==> Outcome(free, n + 1) == Some(Unsupported))
  {
    hide Apart, FreeList, RunsOf, Outcome;
    TurnFree(used, total, t, o, n);
    var r := Apart(t + o, n + 1);
    if n < 4 {
      FewRuns(r);
      OutcomeDone(FreeList(used - Elems(Apart(t + o, n)), total), r, n + 1);
    } else {
      FiveRuns(t + o);
      OutcomeFifth(FreeList(used - Elems(Apart(t + o, n)), total), r, n + 1);
    }
  }

  lemma TurnUsed(used: set<nat>, t: nat, o: nat, n: nat, now: set<nat>)
    requires o <= 1 && n <= 4 && t + 12 <= SEEN && OnlyThese(used, t, Apart(t + o, n), Apart(t + 1 - o, n + o))
    requires now == used - Elems(Apart(t + o, n)) + Elems(Apart(t + o, n + 1))
    ensures OnlyThese(now, t, Apart(t + o, n + 1), Apart(t + 1 - o, n + o))
  {
    forall x: nat | x < SEEN
      ensures x in now <==> x < t || x in Apart(t + o, n + 1) || x in Apart(t + 1 - o, n + o)
    {
      ApartHas(t + o, n, x);
      ApartHas(t + 1 - o, n + o, x);
      ApartHas(t + o, n + 1, x);
    }
  }

  /** What the driver knows of the disk before the turn. */
  lemma TwoFacts(d: Disk, geo: Geometry, csum: bool, files: FileMap, c: Catalog, name: seq<Byte>, p: seq<nat>,
                 other: seq<Byte>, q: seq<nat>, t: nat, n: nat)
    requires Two(d, geo, csum, files, c, name, p, other, q, t)
    ensures var view := ViewOf(d, files, ROOT_INO);
      && IsFile(view, name) && IsFile(view, other) && view[name].ino != view[other].ino
      && OldBlocks(files, view[name].ino) == p && name !in c.others
    ensures forall data: seq<Byte> :: |data| == n ==>
              Answer(d, geo, files, ROOT_INO, c, Write(name, data)).0 ==
              Outcome(FreeList(UsedSet(d, geo) - Elems(p), geo.total), NumBlocks(n))
  {
    hide ViewOf, DirState, FileIs, UsedSet, FreeList, Outcome, NumBlocks;
    ContentsOf(d, geo, csum, files, ROOT_INO, c, name);
    ContentsOf(d, geo, csum, files, ROOT_INO, c, other);
  }

  lemma TurnPlaced(d: Disk, e: Disk, geo: Geometry, files: FileMap, after: FileMap, ino: nat, p: seq<nat>, r: seq<nat>)
    requires Placed(d, e, geo, files, after, ino, |r|, None) && OldBlocks(files, ino) == p
    requires InLine(FreeList(UsedSet(d, geo) - Elems(p), geo.total), r)
    ensures after == files[ino := r] && UsedSet(e, geo) == UsedSet(d, geo) - Elems(p) + Elems(r)
  {
    hide FreeList, UsedSet, OldBlocks;
  }

  lemma TurnOwns(d: Disk, e: Disk, geo: Geometry, files: FileMap, after: FileMap, name: seq<Byte>, r: seq<nat>,
                 other: seq<Byte>, q: seq<nat>)
    requires Owns(d, files, other, q) && ViewOf(e, after, ROOT_INO) == ViewOf(d, files, ROOT_INO)
    requires var view := ViewOf(d, files, ROOT_INO);
      name in view && other in view && view[name].ino != view[other].ino && after == files[view[name].ino := r]
    ensures Owns(e, after, name, r) && Owns(e, after, other, q)
  {
    hide ViewOf;
  }

  /** A turn that succeeds: the file gets one block more. */
  lemma TurnDone(d: Disk, e: Disk, geo: Geometry, csum: bool, files: FileMap, after: FileMap, c: Catalog, now: Catalog,
                 name: seq<Byte>, other: seq<Byte>, t: nat, o: nat, n: nat)
    requires o <= 1 && n < 4 && Two(d, geo, csum, files, c, name, Apart(t + o, n), other, Apart(t + 1 - o, n + o), t)
    requires Represents(e, geo, csum, after, ROOT_INO, now) && name in now.files && other in now.files
    requires Refilled(d, e, geo, files, after, ROOT_INO, name, n + 1, None)
    ensures Two(e, geo, csum, after, now, name, Apart(t + o, n + 1), other, Apart(t + 1 - o, n + o), t)
  {
    hide ViewOf, Represents, UsedSet, FreeList, Apart, OnlyThese, Owns, Placed, InLine, OldBlocks, Elems;
    var p, q, r := Apart(t + o, n), Apart(t + 1 - o, n + o), Apart(t + o, n + 1);
    var ino := ViewOf(d, files, ROOT_INO)[name].ino;
    TwoFacts(d, geo, csum, files, c, name, p, other, q, t, 0);
    TurnFree(UsedSet(d, geo), geo.total, t, o, n);
    TurnPlaced(d, e, geo, files, after, ino, p, r);
    TurnOwns(d, e, geo, files, after, name, r, other, q);
    TurnUsed(UsedSet(d, geo), t, o, n, UsedSet(e, geo));
  }

  method Turn(v: Device, name: seq<Byte>, other: seq<Byte>, n: nat, ghost files: FileMap, ghost c: Catalog,
              ghost t: nat, ghost o: nat)
    returns (ghost after: FileMap, ghost now: Catalog)
    requires v.Valid() && o <= 1 && n < 4 && |name| < 256
    requires Two(v.d, v.geo, v.csum, files, c, name, Apart(t + o, n), other, Apart(t + 1 - o, n + o), t)
    modifies v`d, v`log
    ensures v.Valid()
      && Two(v.d, v.geo, v.csum, after, now, name, Apart(t + o, n + 1), other, Apart(t + 1 - o, n + o), t)
  {
    hide Represents, ViewOf, UsedSet, FreeList, Overwrite, BlocksOf, Answer, Allowed, ShieldHolds, Refilled, Owns,
         OnlyThese, Apart, Outcome, NumBlocks;
    ghost var d := v.d;
    TwoFacts(d, v.geo, v.csum, files, c, name, Apart(t + o, n), other, Apart(t + 1 - o, n + o), t, 4096 * (n + 1));
    TurnAnswer(UsedSet(d, v.geo), v.geo.total, t, o, n);
    WholeBlocks(n + 1);
    var err;
    err, after, now := WriteFile(v, ROOT_INO, name, Zeros(4096 * (n + 1)), files, c, JOURNAL_INO);
    StoredNames(c, now, name, other, Zeros(4096 * (n + 1)), err);
    TurnDone(d, v.d, v.geo, v.csum, files, after, c, now, name, other, t, o, n);
  }

  lemma WholeBlocks(n: nat)
    ensures NumBlocks(4096 * n) == n
  {
  }

  lemma StoredNames(c: Catalog, now: Catalog, name: seq<Byte>, other: seq<Byte>, data: seq<Byte>, err: Option<FsErr>)
    requires Allowed(c, Write(name, data), err, now) && name in c.files && other in c.files && name !in c.others
    ensures name in now.files && other in now.files
  {
  }

  lemma Swapped(d: Disk, geo: Geometry, csum: bool, files: FileMap, c: Catalog, name: seq<Byte>, p: seq<nat>,
                other: seq<Byte>, q: seq<nat>, t: nat)
    requires Two(d, geo, csum, files, c, name, p, other, q, t)
    ensures Two(d, geo, csum, files, c, other, q, name, p, t)
  {
    hide Represents, Owns, UsedSet;
  }

  // ---- two new files ----

  /** Up to `m`, the blocks in front of `t` are used and the others are free. */
  ghost predicate Front(used: set<nat>, t: nat, m: nat) {
    forall x: nat :: x < m ==> (x in used <==> x < t)
  }

  lemma FrontFirst(used: set<nat>, total: nat, t: nat, m: nat)
    requires Front(used, t, m) && t < m <= total
    ensures FreeList(used, total) != [] && FreeList(used, total)[0] == t
  {
    Lowest(used, total, [t]);
    hide FreeList;
  }

  lemma FrontFresh(d: Disk, geo: Geometry, m: nat)
    requires ValidGeo(geo) && m <= GroupBlocks(geo, 0) && FreshBlocks(d, geo, RING_BLOCKS + 7)
    ensures Front(UsedSet(d, geo), 1548, m)
  {
    hide Used;
    forall x: nat | x < m
      ensures x in UsedSet(d, geo) <==> x < 1548
    {
      assert IsMeta(x) <==> x < META_BLOCKS;
    }
  }

  /** The name is new, an inode is free, and the directory can grow: touch succeeds. It takes one block at
      most, the lowest free one. */
  lemma TouchWorks(d: Disk, geo: Geometry, files: FileMap, c: Catalog, name: seq<Byte>, t: nat, m: nat)
    requires Front(UsedSet(d, geo), t, m) && t < m <= geo.total && !Known(c, name) && !NoInodeLeft(d, geo)
    requires ROOT_INO in files && |files[ROOT_INO]| <= 2
    ensures Answer(d, geo, files, ROOT_INO, c, Touch(name)).0 == None
    ensures var u := UsedThen(d, geo, files, ROOT_INO, name); Front(u, t, m) || Front(u, t + 1, m)
  {
    hide UsedSet, FreeList, NoInodeLeft, RoomIn, ViewOf, RunsOf, NeedFor, Front;
    var p, free := files[ROOT_INO], FreeList(UsedSet(d, geo), geo.total);
    FrontFirst(UsedSet(d, geo), geo.total, t, m);
    FewRuns(p + [t]);
    NoElems();
    OneElem(t);
    FrontMore(UsedSet(d, geo), t, m);
    assert UsedSet(d, geo) + {} == UsedSet(d, geo);
    if RoomIn(d, p, NeedFor(name)) {
      assert UsedThen(d, geo, files, ROOT_INO, name) == UsedSet(d, geo);
    } else {
      assert Head(free) == [t];
    }
  }

  lemma FrontMore(used: set<nat>, t: nat, m: nat)
    requires Front(used, t, m)
    ensures Front(used + {t}, t + 1, m)
  {
  }

  /** A new name on a volume of which only the front is used. */
  method TouchNew(v: Device, name: seq<Byte>, ghost files: FileMap, ghost c: Catalog, ghost t: nat, ghost m: nat)
    returns (ghost after: FileMap, ghost now: Catalog, ghost s: nat)
    requires v.Valid() && Represents(v.d, v.geo, v.csum, files, ROOT_INO, c) && |name| < 256 && !Known(c, name)
    requires Front(UsedSet(v.d, v.geo), t, m) && t < m <= v.geo.total && !NoInodeLeft(v.d, v.geo)
    requires ROOT_INO in files && |files[ROOT_INO]| <= 2
    modifies v`d, v`log
    ensures v.Valid() && Represents(v.d, v.geo, v.csum, after, ROOT_INO, now)
    ensures Front(UsedSet(v.d, v.geo), s, m) && t <= s <= t + 1 && now == Stored(c, name, [])
    ensures Touched(old(v.d), v.d, v.geo, files, after, ROOT_INO, name)
  {
    hide Represents, UsedSet, Overwrite, BlocksOf, Answer, Allowed, ShieldHolds, Touched, Front, Known, NoInodeLeft;
    ghost var d := v.d;
    TouchWorks(d, v.geo, files, c, name, t, m);
    var err;
    err, after, now := TouchFile(v, ROOT_INO, name, files, c, JOURNAL_INO);
    NewStored(c, name, now);
    s := TouchedFront(d, v.d, v.geo, files, after, name, t, m);
  }

  lemma NewStored(c: Catalog, name: seq<Byte>, now: Catalog)
    requires Allowed(c, Touch(name), None, now) && !Known(c, name)
    ensures now == Stored(c, name, [])
  {
  }

  lemma TouchedFront(d: Disk, e: Disk, geo: Geometry, files: FileMap, after: FileMap, name: seq<Byte>, t: nat, m: nat)
    returns (s: nat)
    requires Touched(d, e, geo, files, after, ROOT_INO, name)
    requires var u := UsedThen(d, geo, files, ROOT_INO, name); Front(u, t, m) || Front(u, t + 1, m)
    ensures t <= s <= t + 1 && Front(UsedSet(e, geo), s, m)
  {
    hide UsedSet, UsedThen, Front, ViewOf, MarkGained;
    s := if Front(UsedThen(d, geo, files, ROOT_INO, name), t, m) then t else t + 1;
  }

  /** Inodes 17 and 18 are free after mkfs; one touch takes one of them at most. */
  lemma InodesLeft(d: Disk, e: Disk, geo: Geometry, ino: nat)
    requires ValidGeo(geo) && FreshInos(d, geo, 6)
    ensures !NoInodeLeft(d, geo)
    ensures MarkGained(d, e, geo, ino) ==> !NoInodeLeft(e, geo)
  {
    hide Marked;
    assert IsIno(geo, 17) && IsIno(geo, 18);
    assert !InoUsed(d, 17) && !InoUsed(d, 18);
  }

  lemma RootNames(inos: seq<nat>)
    requires inos == SeedInos()
    ensures !Known(RootCatalog(inos), A) && !Known(RootCatalog(inos), B)
  {
    var es := SeedEntries(inos);
    LongNames(es, A);
    LongNames(es, B);
  }

  lemma {:induction false} LongNames(es: seq<DirEnt>, name: seq<Byte>)
    requires |name| == 1 && forall i :: 0 <= i < |es| ==> |es[i].name| >= 3
    ensures name !in AsMap(es)
  {
    if es != [] {
      LongNames(es[1..], name);
    }
  }

  /** Two new files without blocks. */
  lemma TwoNew(d: Disk, m: Disk, e: Disk, geo: Geometry, csum: bool, f0: FileMap, f1: FileMap, f2: FileMap,
               c: Catalog, now: Catalog, t: nat)
    requires Touched(d, m, geo, f0, f1, ROOT_INO, A) && Touched(m, e, geo, f1, f2, ROOT_INO, B)
    requires Represents(e, geo, csum, f2, ROOT_INO, now) && now == Stored(Stored(c, A, []), B, [])
    requires Front(UsedSet(e, geo), t, SEEN) && t + 12 <= SEEN <= geo.total
    ensures Two(e, geo, csum, f2, now, A, Apart(t, 0), B, Apart(t + 1, 0), t)
  {
    hide Represents, ViewOf, UsedSet, MarkGained, UsedThen;
  }

  /** mkfs, and the two files. */
  method StartTwo(v: Device) returns (ghost files: FileMap, ghost c: Catalog, ghost t: nat)
    requires v.Valid() && v.making && Told(v.geo) && v.geo.groups <= MAX_DESCS && v.geo.total == |v.d|
      && FormatAnswer(v.geo).None?
    modifies v`d, v`log, v`dirs
    ensures v.Valid() && Two(v.d, v.geo, v.csum, files, c, A, Apart(t, 0), B, Apart(t + 1, 0), t)
  {
    SeenFits(v.geo);
    hide Formatted, RingLeft, Overwrite, BlocksOf, FormatAnswer, Front, UsedSet, Represents, Touched, NoInodeLeft,
         Known, Two, RootCatalog, FreshInos, FreshBlocks, ValidGeo, Stored;
    var done, inos;
    done, inos, files := FormatVolume(v);
    ghost var d, f0, c0 := v.d, files, RootCatalog(inos);
    StartFacts(d, v.geo, v.csum, files, inos, SEEN);
    ghost var f1, c1, s := TouchNew(v, A, f0, c0, 1548, SEEN);
    ghost var m := v.d;
    TouchedFacts(d, m, v.geo, f0, f1, A);
    InodesLeft(d, m, v.geo, ViewOf(m, f1, ROOT_INO)[A].ino);
    StillNew(c0);
    files, c, t := TouchNew(v, B, f1, c1, s, SEEN);
    TwoNew(d, m, v.d, v.geo, v.csum, f0, f1, files, c0, c, t);
  }

  lemma SeenFits(geo: Geometry)
    requires Covers(geo) && geo.groups <= MAX_DESCS && FormatAnswer(geo).None?
    ensures ValidGeo(geo) && SEEN <= GroupBlocks(geo, 0) && SEEN <= geo.total
  {
  }

  lemma StartFacts(d: Disk, geo: Geometry, csum: bool, files: FileMap, inos: seq<nat>, m: nat)
    requires Formatted(d, geo, csum, files, inos) && ValidGeo(geo) && m <= GroupBlocks(geo, 0)
    ensures |inos| == 6 && Represents(d, geo, csum, files, ROOT_INO, RootCatalog(inos)) && ROOT_INO in files
      && |files[ROOT_INO]| == 1 && Front(UsedSet(d, geo), 1548, m) && FreshInos(d, geo, 6) && !NoInodeLeft(d, geo)
      && !Known(RootCatalog(inos), A) && !Known(RootCatalog(inos), B)
  {
    hide Represents, Front, UsedSet, NoInodeLeft, Known, RootCatalog, FreshInos, FreshBlocks, ValidGeo, Shielded;
    FrontFresh(d, geo, m);
    RootNames(inos);
    InodesLeft(d, d, geo, 0);
  }

  lemma TouchedFacts(d: Disk, e: Disk, geo: Geometry, files: FileMap, after: FileMap, name: seq<Byte>)
    requires Touched(d, e, geo, files, after, ROOT_INO, name)
    ensures var view := ViewOf(e, after, ROOT_INO); name in view && MarkGained(d, e, geo, view[name].ino)
    ensures ROOT_INO in files && ROOT_INO in after && |after[ROOT_INO]| <= |files[ROOT_INO]| + 1
  {
    hide ViewOf, MarkGained, UsedSet, UsedThen;
  }

  lemma StillNew(c: Catalog)
    requires !Known(c, B)
    ensures !Known(Stored(c, A, []), B)
  {
  }

  // ---- the loss ----

  /** The turns: four blocks for each file. */
  method GrowInTurn(v: Device) returns (ghost files: FileMap, ghost c: Catalog, ghost t: nat)
    requires v.Valid() && v.making && Told(v.geo) && v.geo.groups <= MAX_DESCS && v.geo.total == |v.d|
      && FormatAnswer(v.geo).None?
    modifies v`d, v`log, v`dirs
    ensures v.Valid() && Two(v.d, v.geo, v.csum, files, c, A, Apart(t, 4), B, Apart(t + 1, 4), t)
  {
    hide Two, Overwrite, FormatAnswer, Apart;
    files, c, t := StartTwo(v);
    for n := 0 to 4
      invariant v.Valid() && Two(v.d, v.geo, v.csum, files, c, A, Apart(t, n), B, Apart(t + 1, n), t)
    {
      files, c := Turn(v, A, B, n, files, c, t, 0);
      Swapped(v.d, v.geo, v.csum, files, c, A, Apart(t, n + 1), B, Apart(t + 1, n), t);
      files, c := Turn(v, B, A, n, files, c, t, 1);
      Swapped(v.d, v.geo, v.csum, files, c, B, Apart(t + 1, n + 1), A, Apart(t, n + 1), t);
    }
  }

  /** The fifth block of the first file is one too many: write_file is refused, the file is empty, and a
      block that no file has stays in use. */
  method LosesABlock(v: Device) returns (err: Option<FsErr>, ghost files: FileMap, ghost now: Catalog, ghost lost: nat)
    requires v.Valid() && v.making && Told(v.geo) && v.geo.groups <= MAX_DESCS && v.geo.total == |v.d|
      && FormatAnswer(v.geo).None?
    modifies v`d, v`log, v`dirs
    ensures v.Valid() && err == Some(Unsupported) && Represents(v.d, v.geo, v.csum, files, ROOT_INO, now)
    ensures A in now.files && now.files[A] == []
    ensures lost in UsedSet(v.d, v.geo) && !IsMeta(lost) && forall j :: j in files ==> lost !in files[j]
  {
    hide Two, Overwrite, BlocksOf, FormatAnswer, Apart, Represents, UsedSet, FreeList, Answer, Allowed, ShieldHolds,
         Refilled, Outcome, NumBlocks, ViewOf, OnlyThese, IsMeta;
    ghost var was, c, t := GrowInTurn(v);
    ghost var d := v.d;
    TwoFacts(d, v.geo, v.csum, was, c, A, Apart(t, 4), B, Apart(t + 1, 4), t, 20480);
    TwoLine(d, v.geo, v.csum, was, c, t);
    WholeBlocks(5);
    err, files, now := WriteFile(v, ROOT_INO, A, Zeros(20480), was, c, JOURNAL_INO);
    StoredEmpty(c, now, A, Zeros(20480), err);
    lost := Lost(d, v.d, v.geo, v.csum, was, files, c, t);
  }

  lemma TwoLine(d: Disk, geo: Geometry, csum: bool, files: FileMap, c: Catalog, t: nat)
    requires Two(d, geo, csum, files, c, A, Apart(t, 4), B, Apart(t + 1, 4), t)
    ensures Outcome(FreeList(UsedSet(d, geo) - Elems(Apart(t, 4)), geo.total), 5) == Some(Unsupported)
    ensures Represents(d, geo, csum, files, ROOT_INO, c) && A in c.files
  {
    hide Represents, UsedSet, FreeList, Apart, Outcome, Owns, OnlyThese;
    TurnAnswer(UsedSet(d, geo), geo.total, t, 0, 4);
  }

  lemma StoredEmpty(c: Catalog, now: Catalog, name: seq<Byte>, data: seq<Byte>, err: Option<FsErr>)
    requires Allowed(c, Write(name, data), err, now) && name in c.files && name !in c.others && err.Some?
    ensures name in now.files && now.files[name] == []
  {
  }

  lemma Lost(d: Disk, e: Disk, geo: Geometry, csum: bool, files: FileMap, after: FileMap, c: Catalog, t: nat)
    returns (lost: nat)
    requires Two(d, geo, csum, files, c, A, Apart(t, 4), B, Apart(t + 1, 4), t)
    requires Refilled(d, e, geo, files, after, ROOT_INO, A, 5, Some(Unsupported))
    ensures lost in UsedSet(e, geo) && !IsMeta(lost) && forall j :: j in after ==> lost !in after[j]
  {
    hide ViewOf, UsedSet, FreeList, Apart, OnlyThese, DirState, FileIs, FsOk;
    var ino := ViewOf(d, files, ROOT_INO)[A].ino;
    StateFs(d, geo, csum, files, ROOT_INO);
    var rest := UsedSet(d, geo) - Elems(OldBlocks(files, ino));
    lost :| lost in FreeList(rest, geo.total) && UsedSet(e, geo) == rest + {lost};
    FreeIsNew(d, geo, csum, files, ino, lost);
  }

  /** A block that was free, or was freed, is neither metadata nor another file's. */
  lemma FreeIsNew(d: Disk, geo: Geometry, csum: bool, files: FileMap, ino: nat, x: nat)
    requires FsOk(d, geo, csum, files) && ino in files
    requires x in FreeList(UsedSet(d, geo) - Elems(files[ino]), geo.total)
    ensures !IsMeta(x) && forall j :: j in files && j != ino ==> x !in files[j]
  {
    var rest := UsedSet(d, geo) - Elems(files[ino]);
    FreeFromOrder(rest, 0, geo.total);
    hide FreeList;
    assert x < geo.total && x !in rest;
    KeptFacts(d, geo, csum, files, ino);
    FsFile(d, geo, csum, files, ino);
    FsParts(d, geo, csum, files);
    hide FsOk, Accounting, Used, IsMeta, InodeOk, Distinct;
    if x in files[ino] {
      assert !IsMeta(x);
    } else {
      assert x !in UsedSet(d, geo);
    }
    forall j, y | j in files && j != ino && y in files[j]
      ensures y in Kept(files, ino)
    {
    }
  }
}
