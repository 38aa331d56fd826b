/** When the commands succeed, said of free blocks, of runs of blocks and of room in the directory,
    without the order in which the commands find them. */
module Answers {
  import opened Bytes
  import opened Collections
  import opened Wrappers
  import opened Disk
  import opened Extents
  import opened Volume
  import opened InodeAlloc
  import opened Files
  import opened FileSystem
  import opened Inodes
  import opened FileWrite
  import opened FreeSpace
  import opened DirectoryOps
  import opened Directory
  import opened DirCatalog
  import opened DirSteps
  import opened NamedFiles
  import opened RootDir

  /** A directory with the blocks `p` has a place for a record, or can be given one block more. */
  ghost predicate PlaceFor(d: Disk, geo: Geometry, p: seq<nat>, need: nat) {
    RoomIn(d, p, need) || exists blk: nat :: IsLowest(d, geo, blk) && |RunsOf(p + [blk])| <= MAX_ENTRIES
  }

  /** These are all blocks outside `used`, in ascending order. */
  ghost predicate ListsFree(f: seq<nat>, used: set<nat>, total: nat) {
    Increasing(f) && forall x: nat :: x in f <==> x < total && x !in used
  }

  /** There are `n` blocks outside `used`, and the lowest of them make at most four runs. */
  ghost predicate BlocksFor(used: set<nat>, total: nat, n: nat) {
    exists f :: ListsFree(f, used, total) && n <= |f| && |RunsOf(f[..n])| <= MAX_ENTRIES
  }

  lemma FreeListIs(f: seq<nat>, used: set<nat>, total: nat)
    ensures ListsFree(f, used, total) <==> f == FreeList(used, total)
  {
    var g := FreeList(used, total);
    FreeFromOrder(used, 0, total);
    forall x: nat | x < total && x !in used
      ensures x in g
    {
      FreeFromHas(used, 0, total, x);
    }
    if ListsFree(f, used, total) {
      SameIncreasing(f, g);
    }
  }

  lemma OfMore(f: seq<nat>, g: seq<nat>)
    requires forall x: nat :: x in f ==> x in g
    ensures f != [] ==> g != []
  {
    if f != [] {
      assert f[0] in g;
    }
  }

  /** An ascending sequence is known from its elements. */
  lemma {:induction false} SameIncreasing(f: seq<nat>, g: seq<nat>)
    requires Increasing(f) && Increasing(g) && forall x: nat :: x in f <==> x in g
    ensures f == g
    decreases |f|
  {
    OfMore(f, g);
    OfMore(g, f);
    if f != [] {
      assert f[0] in g;
      assert g[0] in f;
      forall x: nat
        ensures x in f[1..] <==> x in g[1..]
      {
        assert x in f[1..] <==> x in f && x > f[0];
        assert x in g[1..] <==> x in g && x > g[0];
      }
      SameIncreasing(f[1..], g[1..]);
    }
  }

  /** At most `n` of the blocks outside `used`, lowest first, make more than four runs. */
  ghost predicate SomeFifth(used: set<nat>, total: nat, n: nat) {
    exists f, m: nat :: ListsFree(f, used, total) && m <= n && m <= |f| && |RunsOf(f[..m])| > MAX_ENTRIES
  }

  /** Writing `n` blocks succeeds exactly if they are there; it answers unsupported exactly if a
      fifth run comes first, and no space otherwise. */
  lemma DataExact(used: set<nat>, geo: Geometry, n: nat)
    ensures DataAnswer(used, geo, n).None? <==> BlocksFor(used, geo.total, n)
    ensures DataAnswer(used, geo, n) == Some(Unsupported) <==> SomeFifth(used, geo.total, n)
    ensures IsLack(DataAnswer(used, geo, n)) || DataAnswer(used, geo, n).None?
  {
    hide RunsOf, ListsFree;
    var f := FreeList(used, geo.total);
    FreeListIs(f, used, geo.total);
    forall g | ListsFree(g, used, geo.total)
      ensures g == f
    {
      FreeListIs(g, used, geo.total);
    }
    forall m: nat | m <= n && m <= |f| && |RunsOf(f[..m])| > MAX_ENTRIES
      ensures DataAnswer(used, geo, n) == Some(Unsupported)
    {
      OutcomeFifth(f, f[..m], n);
    }
    var k := Least(n, |f|);
    assert k <= n && k <= |f|;
    if |RunsOf(f[..k])| > MAX_ENTRIES {
      assert DataAnswer(used, geo, n) == Some(Unsupported);
    }
  }

  lemma OneLowest(d: Disk, geo: Geometry)
    ensures var f := FreeList(UsedSet(d, geo), geo.total);
      && (f == [] <==> Full(d, geo)) && (f != [] ==> IsLowest(d, geo, f[0]))
      && forall blk: nat :: IsLowest(d, geo, blk) ==> f != [] && blk == f[0]
  {
    hide Used;
    var used := UsedSet(d, geo);
    var f := FreeList(used, geo.total);
    FreeListIs(f, used, geo.total);
    if f != [] {
      assert f[0] in f;
    }
    forall x: nat | x < geo.total
      ensures x in f <==> !Used(d, x)
    {
    }
  }

  /** dir_add succeeds exactly if there is a place for the record. It answers no space exactly if
      there is none and every block is in use. */
  lemma AddExact(d: Disk, geo: Geometry, p: seq<nat>, need: nat)
    ensures AddOutcome(d, geo, p, need).None? <==> PlaceFor(d, geo, p, need)
    ensures AddOutcome(d, geo, p, need) == Some(NoSpace) <==> !RoomIn(d, p, need) && Full(d, geo)
  {
    hide RunsOf, RoomIn, UsedSet, Used, FreeList, IsLowest, Full;
    OneLowest(d, geo);
  }

  /** The blocks in use once the directory has a place for this name. */
  ghost predicate UsedNext(d: Disk, geo: Geometry, p: seq<nat>, need: nat, used: set<nat>) {
    if RoomIn(d, p, need) then used == UsedSet(d, geo)
    else exists blk: nat :: IsLowest(d, geo, blk) && used == UsedSet(d, geo) + {blk}
  }

  /** A new name can be added: an inode is free and the directory has a place for it. */
  ghost predicate NewFits(d: Disk, geo: Geometry, files: FileMap, dir: nat, name: seq<Byte>) {
    (exists j :: IsIno(geo, j) && !Marked(d, j)) && PlaceFor(d, geo, OldBlocks(files, dir), Align4(8 + |name|))
  }

  /** The file this name leads to. */
  ghost function BlocksUnder(view: DirMap, files: FileMap, name: seq<Byte>): set<nat> {
    if IsFile(view, name) then Elems(OldBlocks(files, view[name].ino)) else {}
  }

  /** What has to be there for a command to succeed. */
  ghost predicate CanDo(d: Disk, geo: Geometry, files: FileMap, dir: nat, c: Catalog, cmd: Command) {
    var view, p := ViewOf(d, files, dir), OldBlocks(files, dir);
    match cmd
    case Write(name, data) =>
      var n := NumBlocks(|data|);
      if Known(c, name) then
        name !in c.others && BlocksFor(UsedSet(d, geo) - BlocksUnder(view, files, name), geo.total, n)
      else
        NewFits(d, geo, files, dir, name)
        && exists used :: UsedNext(d, geo, p, Align4(8 + |name|), used) && BlocksFor(used, geo.total, n)
    case Touch(name) => Known(c, name) || NewFits(d, geo, files, dir, name)
    case Remove(name) => name in c.files
    case Move(name, to) => Known(c, name) && !Known(c, to) && PlaceFor(d, geo, p, Align4(8 + |to|))
  }

  lemma UsedThenIs(d: Disk, geo: Geometry, files: FileMap, dir: nat, name: seq<Byte>, used: set<nat>)
    requires PlaceFor(d, geo, OldBlocks(files, dir), NeedFor(name))
    ensures UsedNext(d, geo, OldBlocks(files, dir), NeedFor(name), used) <==> used == UsedThen(d, geo, files, dir, name)
  {
    hide RunsOf, RoomIn, Used, FreeList, IsLowest, Full, UsedSet, Elems;
    OneLowest(d, geo);
    var f := FreeList(UsedSet(d, geo), geo.total);
    NoElems();
    if f != [] {
      OneElem(f[0]);
    }
  }

  /** The answer computed from the disk is success exactly if the command can be done. */
  lemma AnswerExact(d: Disk, geo: Geometry, files: FileMap, dir: nat, c: Catalog, cmd: Command)
    requires c.files.Keys !! c.others.Keys
    ensures Answer(d, geo, files, dir, c, cmd).0.None? <==> CanDo(d, geo, files, dir, c, cmd)
  {
    hide RoomIn, UsedSet, FreeList, ViewOf, DataAnswer, UsedNext, UsedThen, PlaceFor, BlocksFor, AddOutcome, IsIno,
         Marked, OldBlocks, NumBlocks, Stored, Renamed, Dropped;
    var view, p := ViewOf(d, files, dir), OldBlocks(files, dir);
    match cmd
    case Write(name, data) =>
      var n, next := NumBlocks(|data|), UsedThen(d, geo, files, dir, name);
      AddExact(d, geo, p, NeedFor(name));
      DataExact(UsedSet(d, geo) - BlocksUnder(view, files, name), geo, n);
      DataExact(next, geo, n);
      if PlaceFor(d, geo, p, NeedFor(name)) {
        forall used
          ensures UsedNext(d, geo, p, NeedFor(name), used) <==> used == next
        {
          UsedThenIs(d, geo, files, dir, name, used);
        }
      }
    case Touch(name) => AddExact(d, geo, p, NeedFor(name));
    case Remove(name) =>
    case Move(name, to) => AddExact(d, geo, p, NeedFor(to));
  }

  /** mkdir succeeds exactly if the name is new, an inode is free, a block is free for the new
      directory, and with that block taken there is a place for the name. */
  lemma MkdirExact(d: Disk, geo: Geometry, files: FileMap, dir: nat, c: Catalog, name: seq<Byte>)
    ensures MkdirAnswer(d, geo, files, dir, c, name).None? <==>
            && !Known(c, name) && (exists j :: IsIno(geo, j) && !Marked(d, j)) && !Full(d, geo)
            && (RoomIn(d, OldBlocks(files, dir), NeedFor(name))
                || exists a: nat, b: nat :: IsLowest(d, geo, a) && IsSecond(d, geo, a, b)
                     && |RunsOf(OldBlocks(files, dir) + [b])| <= MAX_ENTRIES)
  {
    hide RunsOf, RoomIn, Used, FreeList, IsLowest, Full, UsedSet, Elems, Known, NeedFor, OldBlocks, IsIno, Marked;
    OneLowest(d, geo);
    var f := FreeList(UsedSet(d, geo), geo.total);
    if f != [] {
      OneElem(f[0]);
      NextSecond(d, geo, f[0]);
    }
  }

  /** Block `b` is the lowest free one but for `a`. */
  ghost predicate IsSecond(d: Disk, geo: Geometry, a: nat, b: nat) {
    a < b < geo.total && !Used(d, b) && forall x: nat :: x < b && x != a ==> Used(d, x)
  }

  lemma NextSecond(d: Disk, geo: Geometry, a: nat)
    requires IsLowest(d, geo, a)
    ensures var f := FreeList(UsedSet(d, geo) + {a}, geo.total);
      && (f != [] ==> IsSecond(d, geo, a, f[0])) && forall b: nat :: IsSecond(d, geo, a, b) ==> f != [] && b == f[0]
  {
    hide Used;
    var used := UsedSet(d, geo) + {a};
    var f := FreeList(used, geo.total);
    FreeListIs(f, used, geo.total);
    forall x: nat | x < geo.total
      ensures x in f <==> !Used(d, x) && x != a
    {
      assert x in UsedSet(d, geo) <==> Used(d, x);
    }
    if f != [] {
      assert f[0] in f;
    }
  }
}
