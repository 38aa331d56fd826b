/** How large a command may be, and the overrun a larger one ends in. */
module JournalGuards {
  import opened Bytes
  import opened Collections
  import opened Wrappers
  import opened Disk
  import opened JournalFormat
  import opened Journal
  import opened JournalCrash
  import opened JournalRun
  import opened JournalExact

  // ---- atomicity of a command ----

  /** The command can be laid out: every block is on the disk and outside the journal. */
  predicate InPlace(size: nat, base: nat, targets: seq<nat>) {
    forall k :: 0 <= k < |targets| ==> targets[k] < size && targets[k] < U32_LIMIT && !InJournal(base, targets[k])
  }

  function TargetsOf(ws: seq<BlockWrite>): (t: seq<nat>)
    ensures |t| == |ws| && forall k :: 0 <= k < |ws| ==> t[k] == ws[k].blk
  {
    seq(|ws|, k requires 0 <= k < |ws| => ws[k].blk)
  }

  /** Power failing there recovers to the home blocks from before the command or from after it. */
  ghost predicate AtomicAt(s: Sys, ws: seq<BlockWrite>, i: nat, k: nat, t: nat)
    requires WellSized(s) && s.j.seqNo + 1 < U32_LIMIT && i <= |ws| && t <= SECTORS
    requires forall n :: 0 <= n < |ws| ==> ws[n].blk < |s.d|
  {
    var m := ExecWrites(s, ws[..i]);
    WellSized(m) && m.j.seqNo + 1 < U32_LIMIT && k <= |OpWrites(m, CommandOp(ws, i))| ==>
      OldOrWhole(Crash(m.d, OpWrites(m, CommandOp(ws, i)), k, t), s, ws)
  }

  ghost predicate OldOrWhole(c: Disk, s: Sys, ws: seq<BlockWrite>) {
    RecoversTo(c, s.j.base, Home(s.d, s.j.base)) || RecoversTo(c, s.j.base, Overwrite(Home(s.d, s.j.base), ws))
  }

  /** The command is atomic wherever power fails. */
  ghost predicate IsAtomic(s: Sys, ws: seq<BlockWrite>) {
    && WellSized(s) && s.j.seqNo + 1 < U32_LIMIT && (forall n :: 0 <= n < |ws| ==> ws[n].blk < |s.d|)
    && forall i: nat, k: nat, t: nat :: i <= |ws| && t <= SECTORS ==> AtomicAt(s, ws, i, k, t)
  }

  lemma FittingIsAtomic(s: Sys, ws: seq<BlockWrite>)
    requires CommandReady(s, ws) && |BlocksOf(ws)| <= Capacity(s.j.start)
    ensures IsAtomic(s, ws)
  {
    hide Good, Home, CommitFrom, Capacity, Crash, RecoversTo, OpWrites, ExecWrites, BlocksOf, BacklogOf, ClearOf,
         Overwrite, InJournal;
    GoodIsSized(s);
    forall i: nat, k: nat, t: nat | i <= |ws| && t <= SECTORS
      ensures AtomicAt(s, ws, i, k, t)
    {
      CommandAtomic(s, ws, i, k, t);
    }
  }

  /** What a recovered disk holds is one thing only. */
  lemma RecoversToOne(c: Disk, base: nat, g: Disk, h: Disk)
    requires RecoversTo(c, base, g) && RecoversTo(c, base, h)
    ensures g == h
  {
    RecoveredHome(c, base, g);
    RecoveredHome(c, base, h);
  }

  // ---- commands that fill blocks with ones ----

  function FillAll(targets: seq<nat>): (ws: seq<BlockWrite>)
    ensures |ws| == |targets| && forall k :: 0 <= k < |ws| ==> ws[k] == BlockWrite(targets[k], FilledBlock())
  {
    seq(|targets|, k requires 0 <= k < |targets| => BlockWrite(targets[k], FilledBlock()))
  }

  lemma TargetBlocks(ws: seq<BlockWrite>)
    ensures BlocksOf(ws) == Elems(TargetsOf(ws))
  {
    forall b | b in Elems(TargetsOf(ws))
      ensures b in BlocksOf(ws)
    {
      var k :| 0 <= k < |ws| && TargetsOf(ws)[k] == b;
      assert ws[k].blk == b;
    }
    forall b | b in BlocksOf(ws)
      ensures b in Elems(TargetsOf(ws))
    {
      var k :| 0 <= k < |ws| && ws[k].blk == b;
      assert TargetsOf(ws)[k] == b;
    }
  }

  lemma {:induction false} OverwriteOther(h: Disk, ws: seq<BlockWrite>, b: nat)
    requires b < |h| && b !in BlocksOf(ws)
    ensures Overwrite(h, ws)[b] == h[b]
    decreases |ws|
  {
    if ws != [] {
      LastBlock(ws);
      hide BlocksOf;
      OverwriteOther(h, ws[..|ws| - 1], b);
    }
  }

  lemma {:induction false} OverwriteFilled(h: Disk, ws: seq<BlockWrite>, b: nat)
    requires b < |h| && b in BlocksOf(ws) && forall k :: 0 <= k < |ws| ==> ws[k].buf == FilledBlock()
    ensures Overwrite(h, ws)[b] == FilledBlock()
    decreases |ws|
  {
    hide FilledBlock;
    if ws != [] {
      LastBlock(ws);
      hide BlocksOf;
      if ws[|ws| - 1].blk != b {
        OverwriteFilled(h, ws[..|ws| - 1], b);
      }
    }
  }

  lemma FilledIsNotZero()
    ensures FilledBlock() != ZERO_BLOCK
  {
    assert FilledBlock()[0] == 1 && ZERO_BLOCK[0] == 0;
  }

  /** A blank disk is ready for any such command. */
  lemma BlankReady(size: nat, base: nat, start: nat, targets: seq<nat>) returns (s: Sys)
    requires 1 <= start && start + 2 <= LAST_SLOT && base + JOURNAL_BLOCKS + 2 <= size && InPlace(size, base, targets)
    ensures CommandReady(s, FillAll(targets)) && s == Sys(Jbd(base, start, 1, []), BlankJournal(size, base, start))
    ensures BacklogOf(s) == [] && Inv(s, [])
  {
    hide Mounted, Inv, Good, BacklogOf, InFoot, CommitFrom, FilledBlock, BlankJournal, Capacity, BlocksOf;
    s := Mounted(BlankJournal(size, base, start), base);
    BlankGood(size, base, start);
    FilledIsNoCommit();
    NoBacklogIsClear(s, Least(|BlocksOf(FillAll(targets))|, Capacity(start)));
  }

  // ---- how large a command may be ----

  /** The capacity is exact: commands to these blocks, begun at this ring position, are atomic on all
      good disks and with all payloads if and only if their distinct blocks fit one transaction. */
  lemma CapacityIsExact(size: nat, base: nat, start: nat, targets: seq<nat>)
    requires 1 <= start && start + 2 <= LAST_SLOT && base + JOURNAL_BLOCKS + 2 <= size && InPlace(size, base, targets)
    ensures (forall s: Sys, ws: seq<BlockWrite> :: IsCase(s, ws, size, base, start, targets) ==> IsAtomic(s, ws))
            <==> |Elems(targets)| <= Capacity(start)
  {
    hide IsAtomic, CommandReady, Capacity, Elems, FillAll, TargetsOf;
    if |Elems(targets)| <= Capacity(start) {
      forall s: Sys, ws: seq<BlockWrite> | IsCase(s, ws, size, base, start, targets)
        ensures IsAtomic(s, ws)
      {
        TargetBlocks(ws);
        FittingIsAtomic(s, ws);
      }
    } else {
      var s := BlankReady(size, base, start, targets);
      FillTargets(targets);
      TooBigIsNot(s, size, base, start, targets);
    }
  }

  ghost predicate IsCase(s: Sys, ws: seq<BlockWrite>, size: nat, base: nat, start: nat, targets: seq<nat>) {
    CommandReady(s, ws) && s.j.base == base && |s.d| == size && s.j.start == start && TargetsOf(ws) == targets
  }

  lemma FillTargets(targets: seq<nat>)
    ensures TargetsOf(FillAll(targets)) == targets
  {
  }

  lemma TooBigIsNot(s: Sys, size: nat, base: nat, start: nat, targets: seq<nat>)
    requires 1 <= start && start + 2 <= LAST_SLOT && base + JOURNAL_BLOCKS + 2 <= size && InPlace(size, base, targets)
    requires s == Sys(Jbd(base, start, 1, []), BlankJournal(size, base, start)) && CommandReady(s, FillAll(targets))
    requires |Elems(targets)| > Capacity(start)
    ensures !IsAtomic(s, FillAll(targets))
  {
    var ws := FillAll(targets);
    hide Good, Home, CommitFrom, Crash, RecoversTo, OpWrites, ExecWrites, BlocksOf, BacklogOf, ClearOf, Overwrite,
         CommitWrites, FilledBlock, BlankJournal, Capacity, FillAll, Elems, CommandReady, OldOrWhole;
    TargetBlocks(ws);
    FillTargets(targets);
    var i := OversizedCommandSplits(s, ws);
    CapacityPositive(start);
    var m := ExecWrites(s, ws[..i]);
    var c := Crash(m.d, OpWrites(m, CommandOp(ws, i)), |CommitWrites(m.j, m.d)|, 0);
    PrefixIsNeither(s, targets, i, c);
    assert !AtomicAt(s, ws, i, |CommitWrites(m.j, m.d)|, 0);
  }

  lemma CapacityPositive(start: nat)
    requires start + 2 <= LAST_SLOT
    ensures Capacity(start) >= 1
  {
  }

  /** A proper part of the command is neither nothing nor everything of it. */
  lemma PrefixIsNeither(s: Sys, targets: seq<nat>, i: nat, c: Disk)
    requires i < |targets| && |BlocksOf(FillAll(targets)[..i])| >= 1 && targets[i] !in BlocksOf(FillAll(targets)[..i])
    requires forall k :: 0 <= k < |targets| ==>
               targets[k] < |s.d| && !InJournal(s.j.base, targets[k]) && s.d[targets[k]] == ZERO_BLOCK
    requires RecoversTo(c, s.j.base, Overwrite(Home(s.d, s.j.base), FillAll(targets)[..i]))
    ensures !OldOrWhole(c, s, FillAll(targets))
  {
    hide RecoversTo, Overwrite, BlocksOf, FilledBlock;
    var ws, h := FillAll(targets), Home(s.d, s.j.base);
    var part, whole := Overwrite(h, ws[..i]), Overwrite(h, ws);
    FilledIsNotZero();
    FirstWritten(ws, i);
    OverwriteFilled(h, ws[..i], targets[0]);
    InBlocks(ws, i);
    OverwriteFilled(h, ws, targets[i]);
    OverwriteOther(h, ws[..i], targets[i]);
    assert part[targets[0]] != h[targets[0]] && part[targets[i]] != whole[targets[i]];
    if RecoversTo(c, s.j.base, h) {
      RecoversToOne(c, s.j.base, part, h);
    }
    if RecoversTo(c, s.j.base, whole) {
      RecoversToOne(c, s.j.base, part, whole);
    }
  }

  lemma FirstWritten(ws: seq<BlockWrite>, i: nat)
    requires i <= |ws| && |BlocksOf(ws[..i])| >= 1
    ensures i >= 1 && ws[0].blk in BlocksOf(ws[..i])
  {
    assert ws[..0] == [] && BlocksOf([]) == {};
    assert ws[..i][0] == ws[0];
  }

  lemma InBlocks(ws: seq<BlockWrite>, i: nat)
    requires i < |ws|
    ensures ws[i].blk in BlocksOf(ws)
  {
  }

  // ---- the overrun is reached ----

  lemma OverrunsThere(s: Sys, m: Sys, ws: seq<BlockWrite>, i: nat)
    requires WellSized(s) && s.j.start == 1 && i < |ws| && Unsplit(s, m, ws[..i]) && Forces(m.j, ws[i].blk)
    ensures Overruns(m.j, ws[i].blk)
  {
    hide Inv, Home, View, BlocksOf;
    SplitPoint(s, m, ws, i);
  }

  /** A command that begins at slot 1, as on a fresh file system, and does not fit ends in the overrun:
      the block behind the journal gets the contents of one of its blocks. */
  lemma OverrunIsReached(s: Sys, ws: seq<BlockWrite>) returns (i: nat)
    requires CommandReady(s, ws) && s.j.start == 1 && |BlocksOf(ws)| > Capacity(1)
    ensures WellSized(s) && i < |ws|
    ensures var m := ExecWrites(s, ws[..i]);
      && WellSized(m) && m.j.seqNo + 1 < U32_LIMIT && Overruns(m.j, ws[i].blk)
      && !InJournal(s.j.base, s.j.base + JOURNAL_BLOCKS)
      && Exec(m, Write(ws[i].blk, ws[i].buf)).d[s.j.base + JOURNAL_BLOCKS] == ws[i].buf
  {
    hide Good, Home, View, CommitFrom, Backlog, OpenIsFree, Quiet, BlocksOf, BacklogOf, CommitWrites, WriteWrites,
         ClearOf, Overruns, Forces, Capacity, Layout;
    i := FirstTooBig(s, ws);
    ReadyPrefix(s, ws, i);
    FittingStaysUnsplit(s, ws[..i]);
    var m := ExecWrites(s, ws[..i]);
    OverrunsThere(s, m, ws, i);
    OverrunClobbers(m, BacklogOf(s), ws[i].blk, ws[i].buf);
  }
}
