/** From mkfs to the first commands: mounting a new file system whose ring is quiet gives an idle
    journal over exactly that file system, so that commands on it survive power failures. */
module FirstMount {
  import opened Bytes
  import opened Collections
  import opened Wrappers
  import opened Disk
  import opened Bitmap
  import opened JournalFormat
  import opened Journal
  import opened JournalCrash
  import opened JournalRun
  import opened JournalExact
  import opened Volume
  import opened Inodes
  import opened Files
  import opened FileSystem
  import opened FileWrite
  import opened DirectoryOps
  import opened DirCatalog
  import opened DirSteps
  import opened NamedFiles
  import opened Mkfs
  import opened Format
  import opened RootDir
  import opened FileCrash
  import opened CommandCrash

  // ---- only data blocks differ ----

  ghost predicate MetaSame(d: Disk, e: Disk) {
    |e| == |d| && forall x: nat :: x < |d| && IsMeta(x) ==> e[x] == d[x]
  }

  lemma MetaPlaces(g: nat)
    ensures IsMeta(0) && IsMeta(1) && IsMeta(BitmapBlock(g)) && IsMeta(InodeMapBlock(g))
  {
  }

  lemma SumsSame(d: Disk, e: Disk, geo: Geometry)
    requires Accounting(d, geo) && MetaSame(d, e)
    ensures Sums(e, geo)
  {
    assert 0 < |d|;
    hide BlockCounts, InodeCounts, DescAt, Mounts, IsMeta, FirstBlock, SumsOk;
    MetaPlaces(0);
    forall g: nat | g < geo.groups
      ensures SameSumGroup(d, e, g)
    {
      SumsAt(d, geo, g);
      SumsPlaces(d, g);
      MetaPlaces(g);
    }
    SumsKept(d, e, geo);
  }

  lemma AccountingSame(d: Disk, e: Disk, geo: Geometry)
    requires Accounting(d, geo) && MetaSame(d, e)
    ensures Accounting(e, geo) && UsedSet(e, geo) == UsedSet(d, geo)
  {
    hide Sums, BitmapPtr, InodeMapPtr, InodeTablePtr, FreeOf, FreeInodesOf, DescAt, ZeroBits, FreeSum, InodeSum, Bit,
         SbFree, SbInodes, GroupBlocks, IsMeta, FirstBlock, GroupOf, BitOf;
    MetaPlaces(0);
    forall g: nat | g < geo.groups
      ensures GroupOk(e, geo, g) && SameInodeGroup(d, e, g)
    {
      MetaPlaces(g);
      assert GroupOk(d, geo, g) && InodesOk(d, g);
    }
    InodeCountsKept(d, e, geo);
    SumsSame(d, e, geo);
    forall x: nat | x < geo.total
      ensures Used(e, x) <==> Used(d, x)
    {
      MetaPlaces(GroupOf(x));
    }
  }

  lemma FsSame(d: Disk, e: Disk, geo: Geometry, csum: bool, files: FileMap)
    requires FsOk(d, geo, csum, files) && MetaSame(d, e)
    ensures FsOk(e, geo, csum, files)
  {
    FsParts(d, geo, csum, files);
    AccountingSame(d, e, geo);
    hide FsOk, Accounting, UsedSet, MetaUsed, FileOk, InoUsed, MetaSame;
    MetaUsedSame(d, e, geo);
    forall j | j in files
      ensures FileOk(e, geo, csum, j, files[j]) && InoUsed(e, j)
    {
      FsFile(d, geo, csum, files, j);
      FileSame(d, e, geo, csum, j, files[j]);
    }
    FsAgain(d, e, geo, csum, files);
  }

  lemma FileSame(d: Disk, e: Disk, geo: Geometry, csum: bool, j: nat, p: seq<nat>)
    requires FileOk(d, geo, csum, j, p) && InoUsed(d, j) && Accounting(d, geo) && MetaSame(d, e)
    requires UsedSet(e, geo) == UsedSet(d, geo)
    ensures FileOk(e, geo, csum, j, p) && InoUsed(e, j)
  {
    InodeSame(d, e, geo, j);
    hide Accounting, UsedSet, Distinct, Extents.Holds, CsumOk, AreaOf, IsIno, InodeBlock, InoUsed, MetaSame;
  }

  lemma MetaUsedSame(d: Disk, e: Disk, geo: Geometry)
    requires MetaUsed(d, geo) && UsedSet(e, geo) == UsedSet(d, geo)
    ensures MetaUsed(e, geo)
  {
    hide Used, IsMeta;
    forall x: nat | x < geo.total && IsMeta(x)
      ensures Used(e, x)
    {
      assert x in UsedSet(d, geo);
    }
  }

  lemma InodeSame(d: Disk, e: Disk, geo: Geometry, j: nat)
    requires Accounting(d, geo) && MetaSame(d, e) && IsIno(geo, j)
    ensures SameInode(d, e, j) && (InoUsed(d, j) ==> InoUsed(e, j))
  {
    InoIs(geo, j);
    MetaPlaces(InodeGroup(j));
    hide IsMeta, Bit, InodeMapBlock, InodeBlock;
  }

  /** Nothing but blocks of file `g` may differ. */
  lemma OthersMasked(d: Disk, e: Disk, geo: Geometry, csum: bool, files: FileMap, g: nat)
    requires FsOk(d, geo, csum, files) && MetaSame(d, e) && g in files
    requires forall x: nat :: x < |d| && x !in files[g] ==> e[x] == d[x]
    ensures OthersKept(d, e, geo, g, Kept(files, g))
  {
    FsParts(d, geo, csum, files);
    KeptFacts(d, geo, csum, files, g);
    hide FsOk, Accounting, InodeBlock, IsMeta, IsIno, UsedSet, Kept, SameInode;
    forall k: nat | k < geo.groups
      ensures SameBlock(d, e, InodeMapBlock(k))
    {
      MetaPlaces(k);
      InodeMapIs(geo, k);
    }
    forall j: nat | IsIno(geo, j) && j != g
      ensures SameInode(d, e, j)
    {
      InodeSame(d, e, geo, j);
    }
    forall x: nat | x in Kept(files, g)
      ensures SameBlock(d, e, x)
    {
      UsedSmall(d, geo, x);
      assert x !in Elems(files[g]);
    }
  }

  lemma UsedSmall(d: Disk, geo: Geometry, x: nat)
    requires x in UsedSet(d, geo)
    ensures x < geo.total
  {
  }

  /** So the directory shows the same catalog, if none of its names leads to `g`. */
  lemma MaskedShown(d: Disk, e: Disk, geo: Geometry, csum: bool, files: FileMap, dir: nat, g: nat, c: Catalog)
    requires Represents(d, geo, csum, files, dir, c) && Shielded(d, files, dir, g)
    requires FsOk(e, geo, csum, files) && OthersKept(d, e, geo, g, Kept(files, g))
    ensures Represents(e, geo, csum, files, dir, c) && Shielded(e, files, dir, g)
  {
    Sound(d, geo, csum, files, dir, c);
    StateFs(d, geo, csum, files, dir);
    DirUntouched(d, e, geo, csum, files, files, dir, g);
    SparedBy(d, e, geo, csum, files, files, dir, g, g);
    hide DirState, ViewOf, FileIs, Spared, FsOk, OthersKept, Kept;
    var view := ViewOf(d, files, dir);
    forall name | name in c.files && IsFile(view, name)
      ensures FileIs(e, files, dir, view[name].ino, c.files[name])
    {
      FileStays(d, e, files, files, dir, g, view[name].ino, c.files[name]);
    }
  }

  // ---- the mount ----

  lemma MaskedRing(d: Disk, base: nat, p: seq<nat>)
    requires Fits(d, base) && p == Consecutive(base, JOURNAL_BLOCKS)
    ensures forall x: nat :: x < |d| && x !in p ==> Home(d, base)[x] == d[x]
  {
    forall x: nat | x < |d| && InJournal(base, x)
      ensures x in p
    {
      assert p[x - base] == x;
    }
  }

  lemma RingIsData(d: Disk)
    requires Fits(d, RING_AT)
    ensures MetaSame(d, Home(d, RING_AT))
  {
    hide BitOf;
    forall x: nat | x < |d| && IsMeta(x)
      ensures !InJournal(RING_AT, x)
    {
      if InJournal(RING_AT, x) {
        PartsBlock(0, x);
      }
    }
  }

  /** The mount of a new file system with a quiet ring: an idle journal, at slot 1 with sequence number
      1, whose home blocks are that file system, and no name leads into the journal. */
  lemma FirstMounted(d: Disk, geo: Geometry, csum: bool, files: FileMap, inos: seq<nat>)
    requires Formatted(d, geo, csum, files, inos) && Fits(d, RING_AT) && d[RING_AT] == JournalSuper()
      && Quiet(d, RING_AT, 1)
    ensures |d| > 0 && CheckSuper(d[0]) == Ok(geo)
    ensures var s := Mounted(d, RING_AT);
      && s == Sys(Jbd(RING_AT, 1, 1, []), d) && JournalIdle(s)
      && Represents(Home(s.d, RING_AT), geo, csum, files, ROOT_INO, RootCatalog(inos))
      && JournalHidden(Home(s.d, RING_AT), files, ROOT_INO, RING_AT)
  {
    hide Represents, JournalSuper, Quiet, Home, JournalIdle, RootCatalog, Seeded, Mounted, Consecutive, SuperSeq,
         SuperStart, ViewOf;
    JournalSuperReads();
    IdleMount(d);
    HomeShown(d, geo, csum, files, ROOT_INO, RootCatalog(inos));
    StillMounts(d, geo, csum, files, ROOT_INO, RootCatalog(inos));
  }

  /** mount_at accepts every volume that represents a catalog. */
  lemma StillMounts(d: Disk, geo: Geometry, csum: bool, files: FileMap, dir: nat, c: Catalog)
    requires Represents(d, geo, csum, files, dir, c)
    ensures |d| > 0 && CheckSuper(d[0]) == Ok(geo)
  {
    Sound(d, geo, csum, files, dir, c);
    StateFs(d, geo, csum, files, dir);
    hide Represents, DirState;
    FsParts(d, geo, csum, files);
    hide FsOk, BlockCounts, InodeCounts, SumsOk, Mounts, CheckSuper;
    MountsIff(d[0], geo);
  }

  /** The home blocks, with the journal masked out, show the same catalog. */
  lemma HomeShown(d: Disk, geo: Geometry, csum: bool, files: FileMap, dir: nat, c: Catalog)
    requires Represents(d, geo, csum, files, dir, c) && Fits(d, RING_AT)
    requires Shielded(d, files, dir, JOURNAL_INO) && files[JOURNAL_INO] == Consecutive(RING_AT, RING_BLOCKS)
    ensures Represents(Home(d, RING_AT), geo, csum, files, dir, c)
      && Shielded(Home(d, RING_AT), files, dir, JOURNAL_INO)
  {
    ShieldIn(d, files, dir);
    hide *;
    var e := Home(d, RING_AT);
    Sound(d, geo, csum, files, dir, c);
    StateFs(d, geo, csum, files, dir);
    RingIsData(d);
    FsSame(d, e, geo, csum, files);
    MaskedRing(d, RING_AT, files[JOURNAL_INO]);
    OthersMasked(d, e, geo, csum, files, JOURNAL_INO);
    MaskedShown(d, e, geo, csum, files, dir, JOURNAL_INO, c);
  }

  lemma ShieldIn(d: Disk, files: FileMap, dir: nat)
    requires Shielded(d, files, dir, JOURNAL_INO)
    ensures JOURNAL_INO in files
  {
  }

  lemma IdleMount(d: Disk)
    requires Fits(d, RING_AT) && SuperSeq(d[RING_AT]) == 1 && SuperStart(d[RING_AT]) == 1
      && R32(d[RING_AT], 0) == MAGIC && Quiet(d, RING_AT, 1)
    ensures Mounted(d, RING_AT) == Sys(Jbd(RING_AT, 1, 1, []), d) && JournalIdle(Mounted(d, RING_AT))
  {
    hide Quiet, Good, SuperSeq, SuperStart, Mounted;
    QuietMount(d, RING_AT);
    QuietIsStill(d);
  }

  lemma QuietIsStill(d: Disk)
    requires Fits(d, RING_AT) && SuperSeq(d[RING_AT]) == 1 && SuperStart(d[RING_AT]) == 1 && Quiet(d, RING_AT, 1)
    ensures Mounted(d, RING_AT) == Sys(Jbd(RING_AT, 1, 1, []), d)
  {
    hide SuperSeq, SuperStart, Quiet, TxnAt;
    QuietMeansNoTxn(d, RING_AT, 1, 1);
    ApplyNothing(d);
  }

  lemma LeftQuiet(d: Disk, e: Disk)
    requires RingLeft(d, e) && Fits(d, RING_AT) && Quiet(d, RING_AT, 1)
    ensures Fits(e, RING_AT) && e[RING_AT] == JournalSuper() && Quiet(e, RING_AT, 1)
  {
    hide JournalSuper, CommitFrom;
    forall blk: nat | RING_AT < blk < RING_AT + JOURNAL_BLOCKS
      ensures !CommitFrom(e[blk], 1)
    {
      assert SlotLeft(d, e, blk - RING_AT);
    }
  }

  lemma FormattedInos(d: Disk, geo: Geometry, csum: bool, files: FileMap, inos: seq<nat>)
    requires Formatted(d, geo, csum, files, inos)
    ensures inos == SeedInos()
  {
    hide Represents, Shielded, Seeded;
  }

  /** The command's blocks fit a transaction that begins at slot 1. */
  predicate SmallCommand(geo: Geometry, cmd: Command) { geo.groups + 2 + Cost(cmd) <= 1020 }

  lemma FirstRoom(d: Disk, geo: Geometry, cmd: Command)
    requires Fits(d, RING_AT) && Mounted(d, RING_AT) == Sys(Jbd(RING_AT, 1, 1, []), d) && SuperStart(d[RING_AT]) == 1
      && SuperSeq(d[RING_AT]) == 1
    ensures SmallCommand(geo, cmd) ==> RoomFor(Mounted(d, RING_AT), geo, cmd)
  {
    hide Mounted, SuperSeq, SuperStart, InFoot, Cost;
    NoBacklogIsClear(Mounted(d, RING_AT), geo.groups + 2 + Cost(cmd));
  }

  /** mkfs, the mount, and a first command on the root directory. If the ring is quiet, power failing
      anywhere in the command leaves the six empty directories or what the command made of them. */
  method FirstCommand(d0: Disk, geo: Geometry, cmd: Command)
    returns (err: Option<FsErr>, v: Device, ghost s: Sys, ghost now: Catalog)
    requires Told(geo) && geo.groups <= MAX_DESCS && geo.total == |d0| <= U32_LIMIT && FormatAnswer(geo).None?
    requires Fits(d0, RING_AT) && Quiet(d0, RING_AT, 1) && Encodable(cmd)
    ensures Fits(s.d, RING_AT) && JournalIdle(s) && RingLeft(d0, s.d)
    ensures SmallCommand(geo, cmd) && PlainPayloads(s, v.log) ==> FitsOnce(s, v.log) && Durable(s, v.log, v.d)
    ensures SmallCommand(geo, cmd) && PlainPayloads(s, v.log) ==>
              forall i: nat, k: nat, t: nat :: i <= |v.log| && t <= SECTORS ==>
                Survives(s, v.log, Home(s.d, RING_AT), v.d, i, k, t)
    ensures exists files: FileMap, after: FileMap ::
              && Represents(Home(s.d, RING_AT), geo, true, files, ROOT_INO, RootCatalog(SeedInos()))
              && (err, now) == Answer(Home(s.d, RING_AT), geo, files, ROOT_INO, RootCatalog(SeedInos()), cmd)
              && Represents(v.d, geo, true, after, ROOT_INO, now)
  {
    hide Formatted, RingLeft, Mounted, JournalIdle, Represents, JournalHidden, RootCatalog, Answer, Durable, FitsOnce,
         Survives, Home, JournalSuper, Quiet, Allowed, Encodable, Overwrite, FormatAnswer, PlainPayloads, RoomFor,
         SmallCommand;
    var u := new Device(d0, geo, true);
    var done, inos;
    ghost var files;
    done, inos, files := FormatVolume(u);
    ghost var d := u.d;
    LeftQuiet(d0, d);
    FormattedInos(d, geo, true, files, inos);
    FirstMounted(d, geo, true, files, inos);
    s := Mounted(d, RING_AT);
    JournalSuperReads();
    FirstRoom(d, geo, cmd);
    ghost var after;
    v, err, after, now := RunOnJournal(Home(u.d, RING_AT), geo, true, ROOT_INO, cmd, files, RootCatalog(inos), s);
  }
}
