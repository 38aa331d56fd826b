/** From every ring position: how many blocks a command may have there. The positions that need the
    unrecorded wrap allow none. */
module WrapGuard {
  import opened Bytes
  import opened Collections
  import opened Wrappers
  import opened Disk
  import opened JournalFormat
  import opened Journal
  import opened JournalCrash
  import opened JournalRun
  import opened JournalExact
  import opened JournalGuards
  import opened BacklogGuard

  /** A command may begin: nothing is pending, no replayed transaction is still needed, the ring is at this
      slot, and blocks and payloads are fit. */
  ghost predicate Begins(s: Sys, start: nat, ws: seq<BlockWrite>) {
    && Good(s) && BacklogOf(s) == [] && s.j.pend == [] && s.j.start == start && s.j.seqNo + 2 < U32_LIMIT
    && Plain(s, ws)
  }

  lemma BeginsReady(s: Sys, start: nat, ws: seq<BlockWrite>)
    requires Begins(s, start, ws) && start + 2 <= LAST_SLOT
    ensures CommandReady(s, ws)
  {
    hide Good, BacklogOf, ClearOf, CommitFrom, BlocksOf;
    GoodFits(s);
    NoBacklogIsClear(s, Least(|BlocksOf(ws)|, Capacity(start)));
    assert forall i :: 0 <= i < |ws| ==> TargetsOf(ws)[i] == ws[i].blk;
  }

  lemma GoodFits(s: Sys)
    requires Good(s)
    ensures Fits(s.d, s.j.base)
  {
  }

  // ---- at the end of the ring ----

  /** The blank demo system at this slot. */
  function AtSlot(size: nat, start: nat): Sys
    requires start <= LAST_SLOT && size >= BIG
  {
    Sys(Jbd(DEMO_BASE, start, 1, []), BlankJournal(size, DEMO_BASE, start))
  }

  lemma AtSlotGood(size: nat, start: nat)
    requires 1 <= start <= LAST_SLOT && size >= BIG
    ensures var s := AtSlot(size, start); Good(s) && BacklogOf(s) == [] && WellSized(s)
  {
    hide BacklogOf, Inv, BlankJournal;
    BlankGood(size, DEMO_BASE, start);
    GoodIsSized(AtSlot(size, start));
  }

  /** The same system, wrapped in memory. */
  function Wrapped(s: Sys): Sys { s.(j := s.j.(start := 1)) }

  /** The first write wraps; from then on the superblock's slot is forgotten. */
  lemma {:induction false} WrapsAtOnce(s: Sys, ws: seq<BlockWrite>)
    requires WellSized(s) && s.j.pend == [] && s.j.start + 2 > LAST_SLOT && s.j.seqNo + 1 < U32_LIMIT && ws != []
    requires forall i :: 0 <= i < |ws| ==> ws[i].blk < |s.d| && !InJournal(s.j.base, ws[i].blk)
    ensures WellSized(Wrapped(s)) && ExecWrites(s, ws) == ExecWrites(Wrapped(s), ws)
    decreases |ws|
  {
    hide CommitWrites;
    if |ws| > 1 {
      hide Exec;
      WrapsAtOnce(s, ws[..|ws| - 1]);
    } else {
      var w := Wrapped(s);
      assert ws[..0] == [];
      EmptyFind(ws[0].blk);
      assert ExecWrites(s, ws[..0]) == s && ExecWrites(w, ws[..0]) == w;
      assert WriteJbd(s.j, ws[0].blk) == WriteJbd(w.j, ws[0].blk);
      assert WriteWrites(s, ws[0].blk, ws[0].buf) == WriteWrites(w, ws[0].blk, ws[0].buf);
    }
  }

  /** Nothing was ever logged to the slot the superblock points at, but perhaps the commit block. */
  lemma SlotBlank(s: Sys, m: Sys, start: nat, n: nat)
    requires AtOne(s) && s.j.seqNo == 1 && 1022 <= start <= 1023 && 1 <= n <= 1020
    requires s.d[DEMO_BASE + start] == ZERO_BLOCK
    requires WellSized(m) && Layout(m.j) && m.j.pend != [] && |m.j.pend| == n && m.j.start == 1
      && m.j.seqNo == 1 && m.j.base == DEMO_BASE && |m.d| == |s.d|
    requires m.d[DEMO_BASE + start] == s.d[DEMO_BASE + start]
    ensures !IsDesc(SealedDisk(m)[DEMO_BASE + start], 1)
  {
    hide EncodeDesc, EncodeCommit, Checksum, Layout;
    CommitRoundTrip(1, Checksum(DescOf(m.j), Logged(m.j, m.d)), n);
    ZeroField(0);
  }

  /** The first blocks of the command, up to a full transaction, sealed and copied half-way. */
  lemma WrapHalfWay(size: nat, start: nat, n: nat, all: seq<nat>)
    requires 1022 <= start <= 1023 && size >= BIG && 1 <= n <= 1020 && |all| >= n && all[..n] == CommandTargets(n)
    requires InPlace(size, DEMO_BASE, all)
    ensures var s, ws := AtSlot(size, start), FillAll(all);
      && WellSized(s)
      && var m := ExecWrites(s, ws[..n]);
         && WellSized(m) && m.j.seqNo + 1 < U32_LIMIT && Layout(m.j) && m.j.pend != [] && |m.j.pend| == n
         && m.j.start == 1 && m.j == Jbd(DEMO_BASE, 1, 1, PendFor(CommandTargets(n)))
         && 2 <= |CommitWrites(m.j, m.d)| && !OldOrWhole(Crash(m.d, CommitWrites(m.j, m.d), 2, 4), s, ws)
  {
    hide FilledBlock, FillAll, CommitWrites, SealedDisk, Crash, Home, Overwrite, DemoSuper, OldOrWhole, LoggedFrom,
         CommandTargets, OpenTxn, Torn, Layout, Mounted, IsDesc, ExecWrites, BlankJournal, Good, BacklogOf;
    var s := AtSlot(size, start);
    AtSlotGood(size, start);
    var w, ws := Wrapped(s), FillAll(all);
    FillPrefix(all, n);
    WrapsAtOnce(s, ws[..n]);
    LoggedCommand(w, n);
    var m := ExecWrites(w, ws[..n]);
    LoggedLayout(w, m, n);
    LoggedSlot(w, m, start, n);
    SlotBlank(w, m, start, n);
    StuckHalfWay(w, m, start, n, all);
    SameHome(s, w, Crash(m.d, CommitWrites(m.j, m.d), 2, 4), ws);
  }

  lemma FillPrefix(all: seq<nat>, n: nat)
    requires n <= |all|
    ensures FillAll(all)[..n] == FillAll(all[..n])
  {
    hide FilledBlock;
  }

  lemma LoggedSlot(s: Sys, m: Sys, start: nat, n: nat)
    requires AtOne(s) && 1022 <= start <= 1023 && 1 <= n <= 1020 && LoggedFrom(s, m, CommandTargets(n), n)
    ensures |m.d| == |s.d| && m.d[DEMO_BASE + start] == s.d[DEMO_BASE + start]
    ensures m.j == s.j.(pend := PendFor(CommandTargets(n)))
  {
    hide FilledBlock;
    assert CommandTargets(n)[..n] == CommandTargets(n);
  }

  lemma SameHome(s: Sys, w: Sys, c: Disk, ws: seq<BlockWrite>)
    requires w == Wrapped(s) && !OldOrWhole(c, w, ws)
    ensures !OldOrWhole(c, s, ws)
  {
    hide RecoversTo, Home, Overwrite;
  }

  /** At these slots no command is atomic: not one that fits, and not the first transaction of a larger one. */
  lemma WrapIsNot(size: nat, start: nat, n: nat)
    requires 1022 <= start <= 1023 && n >= 1 && size >= BIG + n && InPlace(size, DEMO_BASE, CommandTargets(n))
    ensures !IsAtomic(AtSlot(size, start), FillAll(CommandTargets(n)))
  {
    hide FilledBlock, FillAll, CommitWrites, Crash, OldOrWhole, ExecWrites, BlankJournal, Layout, PendFor,
         CommandTargets;
    var s, all := AtSlot(size, start), CommandTargets(n);
    var ws, m := FillAll(all), Least(n, 1020);
    FirstTargets(n, m);
    WrapHalfWay(size, start, m, all);
    if n <= 1020 {
      assert ws[..m] == ws;
      NotAtCommit(s, ws, 2, 4);
    } else {
      FullThen(s, ws, n);
      assert !AtomicAt(s, ws, 1020, 2, 4);
    }
  }

  lemma FirstTargets(n: nat, m: nat)
    requires 1 <= m <= n
    ensures CommandTargets(n)[..m] == CommandTargets(m)
  {
  }

  /** The write that comes too much begins with the whole commit. */
  lemma FullThen(s: Sys, ws: seq<BlockWrite>, n: nat)
    requires n > 1020 && ws == FillAll(CommandTargets(n)) && WellSized(s) && s.j.seqNo + 1 < U32_LIMIT
      && s.j.base == DEMO_BASE
    requires InPlace(|s.d|, DEMO_BASE, CommandTargets(n))
    requires var m := ExecWrites(s, ws[..1020]);
      && WellSized(m) && m.j.seqNo + 1 < U32_LIMIT && Layout(m.j) && |m.j.pend| == 1020
      && m.j == Jbd(DEMO_BASE, 1, 1, PendFor(CommandTargets(1020)))
    ensures var m := ExecWrites(s, ws[..1020]);
      && |OpWrites(m, CommandOp(ws, 1020))| >= 2
      && Crash(m.d, OpWrites(m, CommandOp(ws, 1020)), 2, 4) == Crash(m.d, CommitWrites(m.j, m.d), 2, 4)
  {
    hide FilledBlock, CommitWrites, Crash, ExecWrites, Layout;
    var m, blk := ExecWrites(s, ws[..1020]), ws[1020].blk;
    CommandDistinct(n);
    FirstTargets(n, 1020);
    NotPending(CommandTargets(n), 1020);
    CommitIsLong(m);
    CrashConcat(m.d, CommitWrites(m.j, m.d), [RawWrite(m.j.base + LogSlot(m.j), ws[1020].buf)], 2, 4);
  }

  lemma CommitIsLong(m: Sys)
    requires WellSized(m) && Layout(m.j) && m.j.seqNo + 1 < U32_LIMIT && m.j.pend != []
    ensures |CommitWrites(m.j, m.d)| >= 3
  {
    hide SealWrites, HomeCopies, SuperWrite, Layout;
    CommitShape(m);
  }

  // ---- every position ----

  /** Commands of `n` blocks begun at a ring position are atomic on every good system there, whatever the
      blocks and their contents, if and only if they fit the transaction; at the two last slots none fits. */
  lemma StartIsExact(start: nat, n: nat)
    requires 1 <= start <= LAST_SLOT && 1 <= n && BIG + n <= U32_LIMIT
    ensures (forall s: Sys, ws: seq<BlockWrite> ::
               Begins(s, start, ws) && |BlocksOf(ws)| == n ==> IsAtomic(s, ws))
            <==> n <= Capacity(start)
  {
    hide IsAtomic, Begins, BlocksOf, FillAll, CommandTargets;
    if n <= Capacity(start) {
      forall s: Sys, ws: seq<BlockWrite> | Begins(s, start, ws) && |BlocksOf(ws)| == n
        ensures IsAtomic(s, ws)
      {
        AtomicThere(s, start, ws);
      }
    } else {
      var s, ws := AtSlot(BIG + n, start), FillAll(CommandTargets(n));
      CaseThere(start, n);
      TooManyThere(start, n);
    }
  }

  lemma AtomicThere(s: Sys, start: nat, ws: seq<BlockWrite>)
    requires Begins(s, start, ws) && 1 <= |BlocksOf(ws)| <= Capacity(start)
    ensures IsAtomic(s, ws)
  {
    hide IsAtomic, Good, BacklogOf, Plain, BlocksOf;
    BeginsReady(s, start, ws);
    FittingIsAtomic(s, ws);
  }

  lemma TargetsInPlace(n: nat)
    requires n >= 1 && BIG + n <= U32_LIMIT
    ensures InPlace(BIG + n, DEMO_BASE, CommandTargets(n))
  {
  }

  lemma CaseThere(start: nat, n: nat)
    requires 1 <= start <= LAST_SLOT && 1 <= n && BIG + n <= U32_LIMIT
    ensures var s, ws := AtSlot(BIG + n, start), FillAll(CommandTargets(n));
            Begins(s, start, ws) && |BlocksOf(ws)| == n
  {
    hide Good, BacklogOf, FilledBlock, BlankJournal, CommandTargets, BlocksOf, CommitFrom, InPlace, Elems;
    var targets := CommandTargets(n);
    AtSlotGood(BIG + n, start);
    TargetsInPlace(n);
    CommandDistinct(n);
    FillTargets(targets);
    TargetBlocks(FillAll(targets));
    FilledIsNoCommit();
  }

  lemma TooManyThere(start: nat, n: nat)
    requires 1 <= start <= LAST_SLOT && 1 <= n && BIG + n <= U32_LIMIT && n > Capacity(start)
    ensures !IsAtomic(AtSlot(BIG + n, start), FillAll(CommandTargets(n)))
  {
    hide IsAtomic, CommandReady, Capacity, Elems, FillAll, CommandTargets, BlankJournal, InPlace;
    var targets := CommandTargets(n);
    TargetsInPlace(n);
    CommandDistinct(n);
    if start + 2 <= LAST_SLOT {
      var s := BlankReady(BIG + n, DEMO_BASE, start, targets);
      TooBigIsNot(s, BIG + n, DEMO_BASE, start, targets);
    } else {
      WrapIsNot(BIG + n, start, n);
    }
  }
}
