/** Whole commands on the journal: creating, rewriting, removing or renaming a file leaves, wherever
    power fails, the catalog from before the command or the one from after it. */
module CommandCrash {
  import opened Bytes
  import opened Collections
  import opened Wrappers
  import opened Disk
  import opened JournalFormat
  import opened Journal
  import opened JournalCrash
  import opened JournalRun
  import opened JournalExact
  import opened Volume
  import opened Files
  import opened FileSystem
  import opened FileWrite
  import opened DirectoryOps
  import opened DirCatalog
  import opened DirSteps
  import opened NamedFiles
  import opened Mkfs
  import opened Format
  import opened FileCrash

  /** The limits of names and of the size field. */
  predicate Encodable(cmd: Command) {
    match cmd
    case Write(name, data) => |name| < 256 && |data| < U32_LIMIT
    case Touch(name) => |name| < 256
    case Remove(_) => true
    case Move(_, to) => |to| < 256
  }

  /** The blocks a command can write, beside those of the block accounting. */
  function Cost(cmd: Command): nat {
    match cmd
    case Write(_, data) => NumBlocks(|data|) + 5
    case Touch(_) => 5
    case Remove(_) => 2
    case Move(_, _) => 4
  }

  /** One of the commands, by its driver. */
  method Execute(v: Device, dir: nat, cmd: Command, ghost files: FileMap, ghost c: Catalog, ghost g: nat)
    returns (err: Option<FsErr>, ghost after: FileMap, ghost now: Catalog)
    requires v.Valid() && Represents(v.d, v.geo, v.csum, files, dir, c) && Encodable(cmd)
    modifies v`d, v`log
    ensures v.Valid() && Represents(v.d, v.geo, v.csum, after, dir, now)
    ensures (err, now) == Answer(old(v.d), v.geo, files, dir, c, cmd) && Allowed(c, cmd, err, now)
    ensures ShieldHolds(old(v.d), v.d, files, after, dir, g, BlocksOf(old(v.log)), BlocksOf(v.log))
    ensures Spent(BlocksOf(old(v.log)), BlocksOf(v.log), Cost(cmd))
  {
    hide Represents, Answer, Allowed, ShieldHolds, Overwrite, BlocksOf, Spent;
    match cmd {
      case Write(name, data) =>
        err, after, now := WriteFile(v, dir, name, data, files, c, g);
      case Touch(name) =>
        err, after, now := TouchFile(v, dir, name, files, c, g);
      case Remove(name) =>
        err, after, now := RemoveFile(v, dir, name, files, c, g);
      case Move(name, to) =>
        err, after, now := MoveFile(v, dir, name, to, files, c, g);
    }
  }

  /** The journal inode owns the journal area, and no name of the directory leads to it. */
  ghost predicate JournalHidden(d: Disk, files: FileMap, dir: nat, base: nat) {
    Shielded(d, files, dir, JOURNAL_INO) && files[JOURNAL_INO] == Consecutive(base, JOURNAL_BLOCKS)
  }

  /** The whole command is durable once its commit has run. */
  ghost predicate Durable(s: Sys, ws: seq<BlockWrite>, d: Disk) {
    && WellSized(s) && s.j.seqNo + 1 < U32_LIMIT && (forall n :: 0 <= n < |ws| ==> ws[n].blk < |s.d|)
    && var m := ExecWrites(s, ws);
    && WellSized(m) && m.j.seqNo + 1 < U32_LIMIT && Good(Exec(m, Commit)) && Home(Exec(m, Commit).d, s.j.base) == d
  }

  /** Its logged blocks are no commit blocks and fit one transaction that is clear of the backlog. */
  predicate FitsOnce(s: Sys, ws: seq<BlockWrite>) {
    Fits(s.d, s.j.base) && PlainPayloads(s, ws) && |BlocksOf(ws)| <= Capacity(s.j.start) && ClearOf(s, |BlocksOf(ws)|)
  }

  /** Known before the command: the blocks it can write, and those of the accounting, fit one transaction
      that is clear of the backlog. */
  predicate RoomFor(s: Sys, geo: Geometry, cmd: Command) {
    var n := geo.groups + 2 + Cost(cmd);
    Fits(s.d, s.j.base) && n <= Capacity(s.j.start) && ClearOf(s, n)
  }

  /** What a command may write: blocks of the volume outside the journal, no more than its cost beside those
      of the accounting, and of the superblock its counters only. */
  ghost predicate Made(d0: Disk, d: Disk, ws: seq<BlockWrite>, base: nat, cmd: Command) {
    && d == Overwrite(d0, ws) && (forall b :: b in BlocksOf(ws) ==> b < |d0|)
    && Avoids({}, BlocksOf(ws), RingOf(base)) && Spent({}, BlocksOf(ws), Cost(cmd)) && HeaderKept(d0, d)
  }

  /** So many blocks there are with those of the accounting: the two boot blocks and a bitmap for each group. */
  lemma SpentFew(geo: Geometry, now: set<nat>, n: nat)
    requires ValidGeo(geo) && Spent({}, now, n) && forall b :: b in now ==> b < geo.total
    ensures |now| <= geo.groups + 2 + n
  {
    hide IsAcct, BitmapBlock;
    var t: set<nat> :| |t| <= n && OnlyWrote({}, now, t);
    var all := {0, 1} + Bitmaps(geo.groups) + t;
    forall b | b in now
      ensures b in all
    {
      if IsAcct(b) {
        AcctIs(geo, b);
      }
    }
    SubsetSize(now, all);
    assert |all| <= |{0, 1} + Bitmaps(geo.groups)| + |t|;
  }

  lemma FitsBefore(s: Sys, geo: Geometry, cmd: Command, ws: seq<BlockWrite>)
    requires RoomFor(s, geo, cmd) && PlainPayloads(s, ws) && ValidGeo(geo) && Spent({}, BlocksOf(ws), Cost(cmd))
    requires forall b :: b in BlocksOf(ws) ==> b < geo.total
    ensures FitsOnce(s, ws)
  {
    hide PlainPayloads, Spent, Cost, BlocksOf, ClearOf, Capacity, Fits;
    SpentFew(geo, BlocksOf(ws), Cost(cmd));
    ClearLess(s, |BlocksOf(ws)|, geo.groups + 2 + Cost(cmd));
  }

  /** A command on an idle journal, from its first block write to the commit. The disk before it
      shows catalog `c`, the disk after it catalog `now`. If its blocks fit one transaction, which can be
      told from the command and the size of the volume, then a power failure at any raw write, torn or
      not, leaves one of these two disks, and the second one once the commit is done. */
  method RunOnJournal(d0: Disk, geo: Geometry, csum: bool, dir: nat, cmd: Command, ghost files: FileMap,
                      ghost c: Catalog, ghost s: Sys)
    returns (v: Device, err: Option<FsErr>, ghost after: FileMap, ghost now: Catalog)
    requires JournalIdle(s) && d0 == Home(s.d, s.j.base) && |d0| == geo.total <= U32_LIMIT && Encodable(cmd)
    requires Represents(d0, geo, csum, files, dir, c) && JournalHidden(d0, files, dir, s.j.base)
    ensures fresh(v) && Represents(v.d, geo, csum, after, dir, now) && JournalHidden(v.d, after, dir, s.j.base)
    ensures (err, now) == Answer(d0, geo, files, dir, c, cmd) && Allowed(c, cmd, err, now)
    ensures Made(d0, v.d, v.log, s.j.base, cmd)
    ensures RoomFor(s, geo, cmd) && PlainPayloads(s, v.log) ==> FitsOnce(s, v.log)
    ensures FitsOnce(s, v.log) ==> OneTransaction(s, v.log, d0, v.d) && Durable(s, v.log, v.d)
    ensures FitsOnce(s, v.log) ==>
              forall i: nat, k: nat, t: nat :: i <= |v.log| && t <= SECTORS ==> Survives(s, v.log, d0, v.d, i, k, t)
  {
    hide Represents, Answer, Allowed, Shielded, JournalIdle, PlainPayloads, Survives, Home, Overwrite, Capacity,
         BlocksOf, Elems, Avoids, Durable, RingOf, FitsOnce, RoomFor, Spent, Cost, OneTransaction, HeaderKept;
    GeoKnown(d0, geo, csum, files, dir, c);
    v := new Device(d0, geo, false);
    NoneWritten();
    err, after, now := Execute(v, dir, cmd, files, c, JOURNAL_INO);
    RingIs(d0, files, dir, s.j.base);
    if RoomFor(s, geo, cmd) && PlainPayloads(s, v.log) {
      FitsBefore(s, geo, cmd, v.log);
    }
    if FitsOnce(s, v.log) {
      OnceFits(s, v.log, d0, v.d);
      BecomesDurable(s, v.log, d0, v.d);
      AllSurvive(s, v.log, d0, v.d);
    }
  }

  lemma GeoKnown(d: Disk, geo: Geometry, csum: bool, files: FileMap, dir: nat, c: Catalog)
    requires Represents(d, geo, csum, files, dir, c)
    ensures ValidGeo(geo) && csum == geo.csum
  {
    Sound(d, geo, csum, files, dir, c);
    StateFs(d, geo, csum, files, dir);
  }

  lemma OnceFits(s: Sys, ws: seq<BlockWrite>, d0: Disk, d: Disk)
    requires FitsOnce(s, ws) && JournalIdle(s) && d0 == Home(s.d, s.j.base) && |d0| <= U32_LIMIT
      && d == Overwrite(d0, ws)
    requires (forall b :: b in BlocksOf(ws) ==> b < |d0|) && Avoids({}, BlocksOf(ws), RingOf(s.j.base))
    ensures OneTransaction(s, ws, d0, d)
  {
  }

  lemma AllSurvive(s: Sys, ws: seq<BlockWrite>, d0: Disk, d: Disk)
    requires OneTransaction(s, ws, d0, d)
    ensures forall i: nat, k: nat, t: nat :: i <= |ws| && t <= SECTORS ==> Survives(s, ws, d0, d, i, k, t)
  {
    hide OneTransaction, Survives;
    forall i: nat, k: nat, t: nat | i <= |ws| && t <= SECTORS
      ensures Survives(s, ws, d0, d, i, k, t)
    {
      CommandSurvives(s, ws, d0, d, i, k, t);
    }
  }

  lemma RingIs(d: Disk, files: FileMap, dir: nat, base: nat)
    requires JournalHidden(d, files, dir, base)
    ensures JOURNAL_INO in files && Elems(files[JOURNAL_INO]) == RingOf(base)
  {
    hide ViewOf;
  }

  lemma BecomesDurable(s: Sys, ws: seq<BlockWrite>, d0: Disk, d: Disk)
    requires OneTransaction(s, ws, d0, d)
    ensures Durable(s, ws, d)
  {
    hide Good, Home, Overwrite, Capacity, CommitFrom, BlocksOf, BacklogOf, Exec, ExecWrites;
    TransactionReady(s, ws, d0, d);
    GoodIsSized(s);
    CommandDurable(s, ws);
  }
}
