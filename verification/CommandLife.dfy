/** Lifetimes of a volume: commands run one after another on the journal, power failing in some of
    them. At every moment the directory shows what the surviving commands made of it, in order. */
module CommandLife {
  import opened Bytes
  import opened Collections
  import opened Wrappers
  import opened Disk
  import opened JournalFormat
  import opened Journal
  import opened JournalCrash
  import opened JournalRun
  import opened JournalExact
  import opened Volume
  import opened Files
  import opened FileSystem
  import opened FileWrite
  import opened DirectoryOps
  import opened DirCatalog
  import opened DirSteps
  import opened NamedFiles
  import opened Mkfs
  import opened Format
  import opened RootDir
  import opened FileCrash
  import opened CommandCrash
  import opened FirstMount
  import opened MountCheck
  import opened RingPosition

  // ---- one command, with its commit ----

  /** A command runs to the end of its commit; or power fails after `k` raw writes, and `t` sectors of
      the next, of its step `i`, and again in some of the mounts after that. */
  datatype Turn =
    | Whole(cmd: Command)
    | Failing(cmd: Command, i: nat, k: nat, t: nat, again: seq<(nat, nat)>)

  predicate Roomy(s: Sys) { WellSized(s) && s.j.seqNo + 1 < U32_LIMIT }

  /** The command's block writes, and its commit, can be carried out. */
  ghost predicate Steady(s: Sys, ws: seq<BlockWrite>) {
    && Roomy(s) && (forall n :: 0 <= n < |ws| ==> ws[n].blk < |s.d|)
    && forall i: nat :: i <= |ws| ==> Roomy(ExecWrites(s, ws[..i]))
  }

  /** The disk that the failure leaves. */
  function CutAt(s: Sys, ws: seq<BlockWrite>, i: nat, k: nat, t: nat): (c: Disk)
    requires Steady(s, ws) && i <= |ws|
    ensures |c| == |s.d|
  {
    var m := ExecWrites(s, ws[..i]);
    var raw := OpWrites(m, CommandOp(ws, i));
    Crash(m.d, raw, Least(k, |raw|), Least(t, SECTORS))
  }

  /** The system after the turn: mounted again, if power failed. */
  function After(s: Sys, ws: seq<BlockWrite>, turn: Turn): (r: Sys)
    requires Steady(s, ws)
  {
    match turn
    case Whole(_) =>
      assert ws[..|ws|] == ws;
      Exec(ExecWrites(s, ws), Commit)
    case Failing(_, i, k, t, again) =>
      Mounted(FailedMounts(CutAt(s, ws, Least(i, |ws|), k, t), s.j.base, again), s.j.base)
  }

  /** Every mount of the turn, the ones that fail included, finds the superblock with its checksum. */
  predicate Boots(c: Disk, base: nat, geo: Geometry, again: seq<(nat, nat)>)
    requires Fits(c, base)
    decreases |again|
  {
    && CheckSuper(c[0]) == Ok(geo)
    && (again != [] ==>
          var ws := Mount(c, base).writes;
          Boots(Crash(c, ws, Least(again[0].0, |ws|), Least(again[0].1, SECTORS)), base, geo, again[1..]))
  }

  predicate Passes(s: Sys, ws: seq<BlockWrite>, turn: Turn, geo: Geometry)
    requires Steady(s, ws)
  {
    turn.Failing? ==> Boots(CutAt(s, ws, Least(turn.i, |ws|), turn.k, turn.t), s.j.base, geo, turn.again)
  }

  /** The first mount after a power failure is refused exactly if the superblock was split in its home write
      and its old checksum does not fit the mixture. */
  lemma PassesIff(s: Sys, ws: seq<BlockWrite>, d0: Disk, d: Disk, turn: Turn, geo: Geometry)
    requires OneTransaction(s, ws, d0, d) && s.j.base > 0 && |d0| > 0 && |d| > 0
    requires Mounts(d0[0], geo) && Mounts(d[0], geo) && SameRest(d0[0], d[0]) && turn.Failing? && turn.again == []
    ensures Steady(s, ws)
    ensures var m := ExecWrites(s, ws[..|ws|]);
            var k, t := Least(turn.k, |OpWrites(m, Commit)|), Least(turn.t, SECTORS);
      Passes(s, ws, turn, geo) <==>
      !(turn.i >= |ws| && Splits(m.j, k, t) && geo.csum && !MixedFits(d0[0], d[0]))
  {
    hide ExecWrites, OneTransaction, Crash, OpWrites, Mounts, SameRest, MixedFits, CheckSuper, Roomy;
    SteadyTurn(s, ws, d0, d);
    var i := Least(turn.i, |ws|);
    RoomyAt(s, ws, i);
    var raw := OpWrites(ExecWrites(s, ws[..i]), CommandOp(ws, i));
    CutMounts(s, ws, d0, d, geo, i, Least(turn.k, |raw|), Least(turn.t, SECTORS));
    MountsIff(CutAt(s, ws, i, turn.k, turn.t)[0], geo);
  }

  lemma RoomyAt(s: Sys, ws: seq<BlockWrite>, i: nat)
    requires Steady(s, ws) && i <= |ws|
    ensures WellSized(s) && s.j.seqNo + 1 < U32_LIMIT
    ensures var m := ExecWrites(s, ws[..i]); WellSized(m) && m.j.seqNo + 1 < U32_LIMIT
  {
    hide ExecWrites;
  }

  /** The command may begin: no unrecorded wrap, and room for all it can write. */
  predicate Ready(s: Sys, geo: Geometry, cmd: Command) {
    s.j.start + 2 <= LAST_SLOT && s.j.seqNo + 2 < U32_LIMIT && RoomFor(s, geo, cmd)
  }

  /** Nothing is pending, and the home blocks show the catalog. */
  ghost predicate Holds(s: Sys, geo: Geometry, csum: bool, dir: nat, files: FileMap, c: Catalog) {
    && Good(s) && s.j.pend == [] && |s.d| == geo.total <= U32_LIMIT
    && Represents(Home(s.d, s.j.base), geo, csum, files, dir, c)
    && JournalHidden(Home(s.d, s.j.base), files, dir, s.j.base)
  }

  lemma SteadyTurn(s: Sys, ws: seq<BlockWrite>, d0: Disk, d: Disk)
    requires OneTransaction(s, ws, d0, d)
    ensures Steady(s, ws)
  {
    hide Good, Home, Overwrite, Capacity, CommitFrom, BlocksOf, BacklogOf, CommandReady, RecoversTo, OpWrites, Crash,
         ExecWrites, CommandOp, ClearOf, WellSized;
    TransactionReady(s, ws, d0, d);
    GoodIsSized(s);
    forall i: nat | i <= |ws|
      ensures Roomy(ExecWrites(s, ws[..i]))
    {
      CommandAtomic(s, ws, i, 0, 0);
    }
  }

  /** A turn ends in a good system with nothing pending and the home blocks from before it or after it;
      from before it only if power failed, and then surely if it failed before the commit. */
  lemma TurnEnds(s: Sys, ws: seq<BlockWrite>, d0: Disk, d: Disk, turn: Turn)
    requires OneTransaction(s, ws, d0, d)
    ensures Steady(s, ws)
    ensures var a := After(s, ws, turn);
      && Good(a) && a.j.pend == [] && a.j.base == s.j.base && |a.d| == |s.d|
      && (turn.Whole? ==> Home(a.d, s.j.base) == d)
      && (turn.Failing? ==> Home(a.d, s.j.base) == d0 || (turn.i >= |ws| && Home(a.d, s.j.base) == d))
  {
    hide Good, Home, Overwrite, Capacity, CommitFrom, BlocksOf, BacklogOf, CommandReady, RecoversTo, OpWrites, Crash,
         ExecWrites, ClearOf, WellSized, Roomy, FailedMounts, Mounted, CommandOp;
    SteadyTurn(s, ws, d0, d);
    TransactionReady(s, ws, d0, d);
    match turn {
      case Whole(_) =>
        CommandDurable(s, ws);
      case Failing(_, i, k, t, again) =>
        FailingEnds(s, ws, Least(i, |ws|), k, t, again);
    }
  }

  lemma FailingEnds(s: Sys, ws: seq<BlockWrite>, i: nat, k: nat, t: nat, again: seq<(nat, nat)>)
    requires CommandReady(s, ws) && |BlocksOf(ws)| <= Capacity(s.j.start) && Steady(s, ws) && i <= |ws|
    ensures var a := Mounted(FailedMounts(CutAt(s, ws, i, k, t), s.j.base, again), s.j.base);
      && Good(a) && a.j.pend == [] && a.j.base == s.j.base && |a.d| == |s.d|
      && (Home(a.d, s.j.base) == Home(s.d, s.j.base)
          || (i == |ws| && Home(a.d, s.j.base) == Overwrite(Home(s.d, s.j.base), ws)))
  {
    hide Good, Home, Overwrite, Capacity, CommitFrom, BlocksOf, BacklogOf, CommandReady, RecoversTo, OpWrites, Crash,
         ExecWrites, ClearOf, FailedMounts, View;
    var m := ExecWrites(s, ws[..i]);
    var raw := OpWrites(m, CommandOp(ws, i));
    var c, base, h := CutAt(s, ws, i, k, t), s.j.base, Home(s.d, s.j.base);
    CommandAtomic(s, ws, i, Least(k, |raw|), Least(t, SECTORS));
    var r := if RecoversTo(c, base, h) then h else Overwrite(h, ws);
    RecoveryIsRestartable(c, base, again, r);
    RecoveredIsGood(FailedMounts(c, base, again), base, r);
  }

  /** A whole command moves the position behind its blocks and leaves no backlog: whether the next command
      may begin is a matter of its size and of what is left of the ring. */
  lemma WholeMoves(s: Sys, ws: seq<BlockWrite>, d0: Disk, d: Disk, done: Command, geo: Geometry, cmd: Command)
    requires OneTransaction(s, ws, d0, d) && BlocksOf(ws) != {}
    ensures Steady(s, ws)
    ensures var a := After(s, ws, Whole(done));
      && Behind(s.j.start, |BlocksOf(ws)|, a.j.start) && a.j.seqNo == s.j.seqNo + 1
      && (Ready(a, geo, cmd) <==>
          a.j.start + 2 <= LAST_SLOT && a.j.seqNo + 2 < U32_LIMIT && geo.groups + 2 + Cost(cmd) <= Capacity(a.j.start))
  {
    hide Good, Home, Overwrite, Capacity, CommitFrom, BacklogOf, CommandReady, OpWrites, Crash, ExecWrites, ClearOf,
         WellSized, Roomy, Exec, Cost, BlocksOf, PlainPayloads, Fits, RingOf, Avoids;
    SteadyTurn(s, ws, d0, d);
    TransactionReady(s, ws, d0, d);
    PendingBlocks(s, ws);
    CommitMoves(ExecWrites(s, ws), BacklogOf(s));
  }

  lemma PendingBlocks(s: Sys, ws: seq<BlockWrite>)
    requires CommandReady(s, ws) && |BlocksOf(ws)| <= Capacity(s.j.start) && BlocksOf(ws) != {}
    ensures Fits(s.d, s.j.base) && forall n :: 0 <= n < |ws| ==> ws[n].blk < |s.d|
    ensures WellSized(s) && s.j.seqNo + 2 < U32_LIMIT
    ensures var m := ExecWrites(s, ws);
      && Inv(m, BacklogOf(s)) && m.j.base == s.j.base && m.j.start == s.j.start && m.j.seqNo == s.j.seqNo
      && |m.j.pend| == |BlocksOf(ws)| && m.j.pend != []
  {
    hide Home, View, CommitFrom, Backlog, OpenIsFree, Quiet, Exec, BacklogOf, BlocksOf, Capacity, ExecWrites;
    FittingStaysUnsplit(s, ws);
    GoodIsSized(s);
  }

  // ---- the specification of a lifetime ----

  /** A whole command does what it may do; one that power failed in may also have done nothing. */
  ghost predicate TurnAllowed(c: Catalog, turn: Turn, err: Option<FsErr>, now: Catalog) {
    Allowed(c, turn.cmd, err, now) || (turn.Failing? && now == c)
  }

  /** Turn `i` takes catalog `i` to catalog `i + 1`. */
  ghost predicate IsLife(cs: seq<Catalog>, turns: seq<Turn>, errs: seq<Option<FsErr>>) {
    |errs| == |turns| && |cs| == |turns| + 1
      && forall i :: 0 <= i < |turns| ==> TurnAllowed(cs[i], turns[i], errs[i], cs[i + 1])
  }

  ghost predicate SameAt(c: Catalog, now: Catalog, name: seq<Byte>) {
    (name in now.files <==> name in c.files) && (name in c.files ==> now.files[name] == c.files[name])
  }

  lemma UnnamedInTurn(c: Catalog, turn: Turn, err: Option<FsErr>, now: Catalog, name: seq<Byte>)
    requires TurnAllowed(c, turn, err, now) && !Names(turn.cmd, name)
    ensures SameAt(c, now, name)
  {
    if Allowed(c, turn.cmd, err, now) {
      assert IsRun([c, now], [turn.cmd], [err]);
      UnnamedKept([c, now], [turn.cmd], [err], name);
    }
  }

  /** From turn `k` on, power failures or not, a file that no command names stays as it is. */
  lemma {:induction false} UnnamedSurvives(cs: seq<Catalog>, turns: seq<Turn>, errs: seq<Option<FsErr>>, k: nat,
                                           name: seq<Byte>)
    requires IsLife(cs, turns, errs) && k <= |turns|
    requires forall i :: k <= i < |turns| ==> !Names(turns[i].cmd, name)
    ensures SameAt(cs[k], cs[|turns|], name)
    decreases |turns| - k
  {
    hide TurnAllowed;
    if k < |turns| {
      UnnamedInTurn(cs[k], turns[k], errs[k], cs[k + 1], name);
      UnnamedSurvives(cs, turns, errs, k + 1, name);
    }
  }

  /** A write that ran to the end of its commit outlives every later power failure, until a command
      names the file again. */
  lemma LastWriteSurvives(cs: seq<Catalog>, turns: seq<Turn>, errs: seq<Option<FsErr>>, k: nat, name: seq<Byte>,
                          data: seq<Byte>)
    requires IsLife(cs, turns, errs) && k < |turns| && turns[k] == Whole(Command.Write(name, data)) && errs[k] == None
    requires forall i :: k < i < |turns| ==> !Names(turns[i].cmd, name)
    ensures name in cs[|turns|].files && cs[|turns|].files[name] == data
  {
    assert TurnAllowed(cs[k], turns[k], errs[k], cs[k + 1]);
    UnnamedSurvives(cs, turns, errs, k + 1, name);
  }

  // ---- the lifetime of a volume ----

  /** These block writes are a run of the command on the home blocks. */
  ghost predicate IsRunOf(s: Sys, geo: Geometry, csum: bool, dir: nat, files: FileMap, c: Catalog, cmd: Command,
                          ws: seq<BlockWrite>) {
    var d0 := Home(s.d, s.j.base);
    exists d: Disk, after: FileMap :: Made(d0, d, ws, s.j.base, cmd)
      && Represents(d, geo, csum, after, dir, Answer(d0, geo, files, dir, c, cmd).1)
  }

  /** One turn of the shell on a volume at rest. It is not begun, or its writes are not let through, only
      if the command lacks room in the journal or a payload looks like a commit block; and it does not end
      if power failed and a mount after it is refused. */
  method TakeTurn(s: Sys, geo: Geometry, csum: bool, dir: nat, turn: Turn, ghost files: FileMap, ghost c: Catalog)
    returns (ok: bool, ws: seq<BlockWrite>, a: Sys, ghost err: Option<FsErr>, ghost after: FileMap,
             ghost now: Catalog)
    requires Holds(s, geo, csum, dir, files, c) && Encodable(turn.cmd)
    ensures Ready(s, geo, turn.cmd) ==> IsRunOf(s, geo, csum, dir, files, c, turn.cmd, ws)
    ensures Ready(s, geo, turn.cmd) && PlainPayloads(s, ws) ==> Steady(s, ws) && (ok <==> Passes(s, ws, turn, geo))
    ensures ok ==> Steady(s, ws) && Passes(s, ws, turn, geo) && a == After(s, ws, turn) && a.j.base == s.j.base
    ensures ok ==> Holds(a, geo, csum, dir, after, now) && TurnAllowed(c, turn, err, now)
    ensures ok && turn.Whole? ==> (err, now) == Answer(Home(s.d, s.j.base), geo, files, dir, c, turn.cmd)
    ensures ok && turn.Failing? && turn.i < |ws| ==> now == c
  {
    hide Represents, Answer, Allowed, Good, PlainPayloads, Home, Overwrite, Capacity, BlocksOf, Elems, Avoids, RingOf,
         FitsOnce, RoomFor, JournalHidden, Durable, Survives, After, OneTransaction, Made, Steady, IsRun, Encodable,
         Passes;
    ok, ws, a, err, after, now := false, [], s, None, files, c;
    if s.j.start + 2 <= LAST_SLOT && s.j.seqNo + 2 < U32_LIMIT {
      ghost var d0 := Home(s.d, s.j.base);
      var v;
      ghost var e, f1, c1;
      v, e, f1, c1 := RunOnJournal(Home(s.d, s.j.base), geo, csum, dir, turn.cmd, files, c, s);
      ws := v.log;
      if FitsOnce(s, ws) {
        TurnEnds(s, ws, d0, v.d, turn);
        if !Passes(s, ws, turn, geo) {
          return;
        }
        ok, err := true, e;
        a := After(s, ws, turn);
        if Home(a.d, s.j.base) == v.d && (turn.Whole? || turn.i >= |ws|) {
          after, now := f1, c1;
        }
      }
    }
  }

  /** System `i + 1` is what turn `i` with its block writes made of system `i`. */
  ghost predicate Played(ss: seq<Sys>, logs: seq<seq<BlockWrite>>, turns: seq<Turn>, geo: Geometry) {
    |logs| == |turns| && |ss| == |turns| + 1
      && forall i :: 0 <= i < |turns| ==> Steady(ss[i], logs[i]) && Passes(ss[i], logs[i], turns[i], geo)
                                          && ss[i + 1] == After(ss[i], logs[i], turns[i])
  }

  /** A lifetime ends with the turn: a payload looks like a commit block, or a mount is refused. */
  ghost predicate Ends(s: Sys, ws: seq<BlockWrite>, turn: Turn, geo: Geometry) {
    !PlainPayloads(s, ws) || (Steady(s, ws) && !Passes(s, ws, turn, geo))
  }

  /** The lifetime of a volume, as long as each command has room in the journal, no payload looks like a commit
      block, and no mount is refused: at its end the directory shows the outcome of the surviving commands in
      order. */
  method Live(s: Sys, geo: Geometry, csum: bool, dir: nat, turns: seq<Turn>, ghost files: FileMap, ghost c: Catalog)
    returns (done: nat, z: Sys, last: seq<BlockWrite>, ghost ss: seq<Sys>, ghost logs: seq<seq<BlockWrite>>,
             ghost cs: seq<Catalog>, ghost errs: seq<Option<FsErr>>, ghost after: FileMap)
    requires Holds(s, geo, csum, dir, files, c) && forall i :: 0 <= i < |turns| ==> Encodable(turns[i].cmd)
    ensures done <= |turns| && Played(ss, logs, turns[..done], geo) && ss[0] == s && ss[done] == z
    ensures IsLife(cs, turns[..done], errs) && cs[0] == c
    ensures Holds(z, geo, csum, dir, after, cs[done])
    ensures done < |turns| && Ready(z, geo, turns[done].cmd) ==>
              Ends(z, last, turns[done], geo) && IsRunOf(z, geo, csum, dir, after, cs[done], turns[done].cmd, last)
  {
    hide Passes, IsRunOf, Holds, Encodable, Ready, PlainPayloads, TurnAllowed, Steady, After, Answer;
    done, z, last, ss, logs, cs, errs, after := 0, s, [], [s], [], [c], [], files;
    while done < |turns|
      invariant done <= |turns| && Played(ss, logs, turns[..done], geo) && ss[0] == s && ss[done] == z
      invariant IsLife(cs, turns[..done], errs) && cs[0] == c
      invariant Holds(z, geo, csum, dir, after, cs[done])
    {
      var ok, a;
      ghost var err, f1, now;
      ok, last, a, err, f1, now := TakeTurn(z, geo, csum, dir, turns[done], after, cs[done]);
      if !ok {
        return;
      }
      OneMore(ss, logs, cs, errs, turns, done, a, last, err, now, geo);
      ss, logs, cs, errs, after := ss + [a], logs + [last], cs + [now], errs + [err], f1;
      done, z := done + 1, a;
    }
  }

  lemma OneMore(ss: seq<Sys>, logs: seq<seq<BlockWrite>>, cs: seq<Catalog>, errs: seq<Option<FsErr>>,
                turns: seq<Turn>, n: nat, a: Sys, ws: seq<BlockWrite>, err: Option<FsErr>, now: Catalog,
                geo: Geometry)
    requires n < |turns| && Played(ss, logs, turns[..n], geo) && IsLife(cs, turns[..n], errs)
    requires Steady(ss[n], ws) && Passes(ss[n], ws, turns[n], geo) && a == After(ss[n], ws, turns[n])
      && TurnAllowed(cs[n], turns[n], err, now)
    ensures Played(ss + [a], logs + [ws], turns[..n + 1], geo) && IsLife(cs + [now], turns[..n + 1], errs + [err])
  {
    hide Steady, Passes, After, TurnAllowed;
    forall i: nat | i <= n
      ensures turns[..n + 1][i] == turns[i] && (i < n ==> turns[..n][i] == turns[i])
    {
    }
  }

  // ---- from mkfs on ----

  lemma NewHolds(d: Disk, geo: Geometry, csum: bool, files: FileMap, inos: seq<nat>)
    requires Formatted(d, geo, csum, files, inos) && Fits(d, RING_AT) && d[RING_AT] == JournalSuper()
      && Quiet(d, RING_AT, 1) && |d| == geo.total <= U32_LIMIT
    ensures Holds(Mounted(d, RING_AT), geo, csum, ROOT_INO, files, RootCatalog(SeedInos()))
  {
    hide Formatted, JournalSuper, Quiet, Mounted, Represents, JournalHidden, RootCatalog, Home, Good;
    FirstMounted(d, geo, csum, files, inos);
    FormattedInos(d, geo, csum, files, inos);
  }

  lemma FirstReady(d: Disk, geo: Geometry, csum: bool, files: FileMap, inos: seq<nat>, cmd: Command)
    requires Formatted(d, geo, csum, files, inos) && Fits(d, RING_AT) && d[RING_AT] == JournalSuper()
      && Quiet(d, RING_AT, 1)
    ensures SmallCommand(geo, cmd) ==> Ready(Mounted(d, RING_AT), geo, cmd)
  {
    hide Formatted, JournalSuper, Quiet, Mounted, Represents, JournalHidden, RootCatalog, Home, JournalIdle, RoomFor,
         SmallCommand, SuperSeq, SuperStart;
    FirstMounted(d, geo, csum, files, inos);
    JournalSuperReads();
    FirstRoom(d, geo, cmd);
  }

  /** mkfs over a quiet ring, the mount, and any lifetime of commands on the root directory: it begins with
      the six empty directories. */
  method LiveFromMkfs(d0: Disk, geo: Geometry, turns: seq<Turn>)
    returns (done: nat, z: Sys, last: seq<BlockWrite>, ghost cs: seq<Catalog>, ghost errs: seq<Option<FsErr>>,
             ghost after: FileMap)
    requires Told(geo) && geo.groups <= MAX_DESCS && geo.total == |d0| <= U32_LIMIT && FormatAnswer(geo).None?
    requires Fits(d0, RING_AT) && Quiet(d0, RING_AT, 1) && forall i :: 0 <= i < |turns| ==> Encodable(turns[i].cmd)
    ensures done <= |turns| && IsLife(cs, turns[..done], errs) && cs[0] == RootCatalog(SeedInos())
    ensures Holds(z, geo, true, ROOT_INO, after, cs[done])
    ensures done < |turns| && Ready(z, geo, turns[done].cmd) ==>
              Ends(z, last, turns[done], geo) && IsRunOf(z, geo, true, ROOT_INO, after, cs[done], turns[done].cmd, last)
    ensures |turns| > 0 && SmallCommand(geo, turns[0].cmd) && done == 0 ==> Ends(z, last, turns[0], geo)
  {
    hide Formatted, RingLeft, Mounted, RootCatalog, JournalSuper, Quiet, FormatAnswer, Holds, Encodable, IsLife,
         Ready, Ends, IsRunOf, Played;
    var u := new Device(d0, geo, true);
    var err, inos;
    ghost var files;
    err, inos, files := FormatVolume(u);
    LeftQuiet(d0, u.d);
    FormattedInos(u.d, geo, true, files, inos);
    NewHolds(u.d, geo, true, files, inos);
    ghost var ss, logs;
    done, z, last, ss, logs, cs, errs, after :=
      Live(Mounted(u.d, RING_AT), geo, true, ROOT_INO, turns, files, RootCatalog(inos));
    if turns != [] {
      FirstReady(u.d, geo, true, files, inos, turns[0].cmd);
    }
  }
}
