/** When exactly the journal keeps its promise: which commands are atomic, and the two guards
    without which a transaction is lost or the ring is overrun. */
module JournalExact {
  import opened Bytes
  import opened Collections
  import opened Wrappers
  import opened Disk
  import opened JournalFormat
  import opened Journal
  import opened JournalCrash
  import opened JournalRun

  // ---- a command: block writes, then one commit ----

  function ExecWrites(s: Sys, ws: seq<BlockWrite>): (r: Sys)
    requires WellSized(s) && s.j.seqNo + 1 < U32_LIMIT
    requires forall i :: 0 <= i < |ws| ==> ws[i].blk < |s.d|
    ensures |r.d| == |s.d| && r.j.base == s.j.base
    decreases |ws|
  {
    if ws == [] then s
    else
      var n := |ws| - 1;
      var m := ExecWrites(s, ws[..n]);
      if WellSized(m) && m.j.seqNo + 1 < U32_LIMIT then Exec(m, Write(ws[n].blk, ws[n].buf)) else m
  }

  /** How many blocks the open transaction can hold, begun at slot `start`. */
  function Capacity(start: nat): nat {
    if start + MAX_PEND + 1 <= LAST_SLOT then MAX_PEND else if start + 1 <= LAST_SLOT then LAST_SLOT - start - 1 else 0
  }

  /** The slots of a transaction of `n` blocks, begun now, are none of the backlog's. */
  predicate ClearOf(s: Sys, n: nat)
    requires Fits(s.d, s.j.base)
  {
    forall b: nat :: s.j.base + s.j.start <= b <= s.j.base + s.j.start + 1 + n ==>
      !InFoot(b, s.j.base, SuperStart(s.d[s.j.base]), BacklogOf(s))
  }

  lemma NoBacklogIsClear(s: Sys, n: nat)
    requires Fits(s.d, s.j.base) && BacklogOf(s) == []
    ensures ClearOf(s, n)
  {
  }

  /** The command may be run on this system: nothing is pending, the first transaction does not
      need the unrecorded wrap, its slots avoid the backlog, and payloads and block numbers are fit. */
  ghost predicate CommandReady(s: Sys, ws: seq<BlockWrite>) {
    && Good(s) && s.j.pend == [] && ClearOf(s, Least(|BlocksOf(ws)|, Capacity(s.j.start)))
    && s.j.start + 2 <= LAST_SLOT && s.j.seqNo + 2 < U32_LIMIT
    && forall i :: 0 <= i < |ws| ==>
         ws[i].blk < |s.d| && ws[i].blk < U32_LIMIT && !InJournal(s.j.base, ws[i].blk)
           && !CommitFrom(ws[i].buf, s.j.seqNo)
  }

  /** The system inside a command that has not been split yet. */
  ghost predicate Unsplit(s: Sys, m: Sys, ws: seq<BlockWrite>)
    requires WellSized(s)
  {
    && Inv(m, BacklogOf(s))
    && m.j.base == s.j.base && m.j.start == s.j.start && m.j.seqNo == s.j.seqNo && |m.d| == |s.d|
       && m.d[s.j.base] == s.d[s.j.base]
    && Home(m.d, s.j.base) == Home(s.d, s.j.base)
    && View(m) == Overwrite(Home(s.d, s.j.base), ws)
    && |m.j.pend| == |BlocksOf(ws)| && (forall b :: b in BlocksOf(ws) <==> IsHome(m.j, b))
  }

  lemma FreshIffNew(s: Sys, m: Sys, ws: seq<BlockWrite>, blk: nat)
    requires WellSized(s) && Unsplit(s, m, ws)
    ensures Fresh(m.j, blk) <==> blk !in BlocksOf(ws)
  {
    hide Inv, Home, View;
    if Fresh(m.j, blk) {
      assert !IsHome(m.j, blk);
    } else {
      assert IsHome(m.j, blk);
    }
  }

  lemma FullIffCapacity(j: Jbd)
    requires Layout(j) && 1 <= j.start && j.start + 2 <= LAST_SLOT && |j.pend| <= MAX_PEND
    ensures |j.pend| <= Capacity(j.start) && (MustCommit(j) <==> |j.pend| == Capacity(j.start))
  {
  }

  /** The next write forces a commit exactly when it brings the first block too many. */
  lemma ForcesIffTooMany(s: Sys, m: Sys, ws: seq<BlockWrite>)
    requires CommandReady(s, ws) && ws != [] && WellSized(s) && Unsplit(s, m, ws[..|ws| - 1])
    ensures Forces(m.j, ws[|ws| - 1].blk) <==> |BlocksOf(ws)| > Capacity(s.j.start) >= |BlocksOf(ws[..|ws| - 1])|
    ensures |BlocksOf(ws)| == |BlocksOf(ws[..|ws| - 1])| + if Fresh(m.j, ws[|ws| - 1].blk) then 1 else 0
  {
    FullIffCapacity(m.j);
    FreshIffNew(s, m, ws[..|ws| - 1], ws[|ws| - 1].blk);
    hide Inv, Good, ClearOf, Home, View, CommitFrom, BacklogOf, Capacity, MustCommit, IsHome, BlocksOf, Fresh;
    OneMoreBlock(ws);
    FreshNotIn(m.j, ws[|ws| - 1].blk);
  }

  lemma FreshNotIn(j: Jbd, blk: nat)
    ensures Forces(j, blk) <==> !InJournal(j.base, blk) && Fresh(j, blk) && MustCommit(j)
  {
  }

  lemma OneMoreBlock(ws: seq<BlockWrite>)
    requires ws != []
    ensures |BlocksOf(ws)| == |BlocksOf(ws[..|ws| - 1])| + if ws[|ws| - 1].blk in BlocksOf(ws[..|ws| - 1]) then 0 else 1
  {
    var n := |ws| - 1;
    BlocksSnoc(ws[..n], ws[n]);
    assert ws == ws[..n] + [ws[n]];
    hide BlocksOf;
    if ws[n].blk in BlocksOf(ws[..n]) {
      assert BlocksOf(ws) == BlocksOf(ws[..n]);
    }
  }

  /** One more block write keeps the command unsplit exactly when it fits. */
  lemma UnsplitStep(s: Sys, m: Sys, ws: seq<BlockWrite>)
    requires CommandReady(s, ws) && ws != [] && WellSized(s) && Unsplit(s, m, ws[..|ws| - 1])
    ensures WellSized(m) && m.j.seqNo + 1 < U32_LIMIT
    ensures Forces(m.j, ws[|ws| - 1].blk) <==> |BlocksOf(ws)| > Capacity(s.j.start) >= |BlocksOf(ws[..|ws| - 1])|
    ensures !Forces(m.j, ws[|ws| - 1].blk) ==>
              && SafeOp(m, BacklogOf(s), Write(ws[|ws| - 1].blk, ws[|ws| - 1].buf))
              && Unsplit(s, Exec(m, Write(ws[|ws| - 1].blk, ws[|ws| - 1].buf)), ws)
  {
    var w := ws[|ws| - 1];
    ForcesIffTooMany(s, m, ws);
    if !Forces(m.j, w.blk) {
      UnforcedIsSafe(s, m, ws);
      UnsplitAfter(s, m, ws, w);
    }
  }

  lemma UnforcedIsSafe(s: Sys, m: Sys, ws: seq<BlockWrite>)
    requires CommandReady(s, ws) && ws != [] && WellSized(s) && Unsplit(s, m, ws[..|ws| - 1])
    requires !Forces(m.j, ws[|ws| - 1].blk)
    ensures SafeOp(m, BacklogOf(s), Write(ws[|ws| - 1].blk, ws[|ws| - 1].buf))
  {
    ForcesIffTooMany(s, m, ws);
    hide Backlog, Quiet, OpenIsFree, Home, View, CommitFrom, BacklogOf, BlocksOf, InFoot, Capacity;
    ClearNoHit(s, m, ws);
  }

  /** The next block, if it is a new one, is logged clear of the backlog. */
  lemma ClearNoHit(s: Sys, m: Sys, ws: seq<BlockWrite>)
    requires CommandReady(s, ws) && ws != [] && WellSized(s) && Unsplit(s, m, ws[..|ws| - 1])
    requires !Forces(m.j, ws[|ws| - 1].blk)
    ensures !HitsBacklog(m, BacklogOf(s), ws[|ws| - 1].blk)
  {
    ForcesIffTooMany(s, m, ws);
    ReadyPrefix(s, ws, |ws| - 1);
    FullIffCapacity(m.j);
    hide Inv, Home, View, CommitFrom, BacklogOf, BlocksOf, InFoot, Capacity, Good;
  }

  lemma UnsplitAfter(s: Sys, m: Sys, ws: seq<BlockWrite>, w: BlockWrite)
    requires ws != [] && w == ws[|ws| - 1] && WellSized(s) && Unsplit(s, m, ws[..|ws| - 1]) && w.blk < |s.d|
    requires !Forces(m.j, w.blk) && SafeOp(m, BacklogOf(s), Write(w.blk, w.buf))
    requires |BlocksOf(ws)| == |BlocksOf(ws[..|ws| - 1])| + if Fresh(m.j, w.blk) then 1 else 0
    ensures Unsplit(s, Exec(m, Write(w.blk, w.buf)), ws)
  {
    var e := Exec(m, Write(w.blk, w.buf));
    hide Inv, Home, View, BacklogOf, IsHome, BlocksOf, Fresh, Exec, SafeOp, Forces, WellSized, Overwrite;
    LoggedState(m, BacklogOf(s), w.blk, w.buf);
    LastWrite(Home(s.d, s.j.base), ws);
    assert BlocksOf(ws) == BlocksOf(ws[..|ws| - 1]) + {w.blk};
  }

  lemma LastWrite(h: Disk, ws: seq<BlockWrite>)
    requires ws != [] && ws[|ws| - 1].blk < |h|
    ensures BlocksOf(ws) == BlocksOf(ws[..|ws| - 1]) + {ws[|ws| - 1].blk}
    ensures Overwrite(h, ws) == Overwrite(h, ws[..|ws| - 1])[ws[|ws| - 1].blk := ws[|ws| - 1].buf]
  {
    LastBlock(ws);
    hide BlocksOf;
  }

  lemma LastBlock(ws: seq<BlockWrite>)
    requires ws != []
    ensures BlocksOf(ws) == BlocksOf(ws[..|ws| - 1]) + {ws[|ws| - 1].blk}
  {
    hide BlocksOf;
    BlocksSnoc(ws[..|ws| - 1], ws[|ws| - 1]);
    assert ws == ws[..|ws| - 1] + [ws[|ws| - 1]];
  }

  /** All a logged write does. */
  lemma LoggedState(m: Sys, T: seq<Txn>, blk: nat, buf: Block)
    requires Inv(m, T) && SafeOp(m, T, Write(blk, buf)) && !Forces(m.j, blk) && blk < |m.d|
    ensures var e := Exec(m, Write(blk, buf));
      && Inv(e, T) && e.j.base == m.j.base && e.j.start == m.j.start && e.j.seqNo == m.j.seqNo && |e.d| == |m.d|
      && e.d[m.j.base] == m.d[m.j.base] && Home(e.d, m.j.base) == Home(m.d, m.j.base) && View(e) == View(m)[blk := buf]
      && |e.j.pend| == |m.j.pend| + (if Fresh(m.j, blk) then 1 else 0)
        && forall b :: IsHome(e.j, b) <==> IsHome(m.j, b) || b == blk
  {
    hide Backlog, Quiet, OpenIsFree, Home, View, CommitFrom, WriteWrites, Apply, HitsBacklog, MustCommit, IsHome;
    StepKeeps(m, T, Write(blk, buf));
    HomesAfterWrite(m.j, blk);
    SuperStays(m, T, blk, buf);
  }

  /** A logged write leaves the journal superblock alone. */
  lemma SuperStays(m: Sys, T: seq<Txn>, blk: nat, buf: Block)
    requires Inv(m, T) && SafeOp(m, T, Write(blk, buf)) && !Forces(m.j, blk)
    ensures Exec(m, Write(blk, buf)).d[m.j.base] == m.d[m.j.base]
    ensures Exec(m, Write(blk, buf)).j.seqNo == m.j.seqNo && Exec(m, Write(blk, buf)).j.start == m.j.start
  {
    hide Backlog, Quiet, OpenIsFree, HitsBacklog, WriteWrites, CommitFrom;
    LogBlockFacts(m, T, blk, buf);
    Logged1(m, T, blk, buf);
  }

  lemma HomesAfterWrite(j: Jbd, blk: nat)
    requires Layout(j) && !InJournal(j.base, blk) && !Forces(j, blk)
    ensures forall b :: IsHome(WriteJbd(j, blk), b) <==> IsHome(j, b) || b == blk
  {
    var j' := WriteJbd(j, blk);
    forall b: nat
      ensures IsHome(j', b) <==> IsHome(j, b) || b == blk
    {
      if IsHome(j, b) {
        var k :| 0 <= k < |j.pend| && j.pend[k].blk == b;
        assert j'.pend[k].blk == b;
      } else if b == blk {
        assert Fresh(j, blk);
        assert j'.pend[|j.pend|].blk == b;
      }
    }
  }

  lemma ReadyPrefix(s: Sys, ws: seq<BlockWrite>, i: nat)
    requires CommandReady(s, ws) && i <= |ws|
    ensures CommandReady(s, ws[..i]) && WellSized(s)
    ensures |BlocksOf(ws[..i])| <= |BlocksOf(ws)|
  {
    hide Inv, CommitFrom, BacklogOf, InFoot, Capacity;
    GoodIsSized(s);
    assert BlocksOf(ws[..i]) <= BlocksOf(ws) by {
      forall b | b in BlocksOf(ws[..i])
        ensures b in BlocksOf(ws)
      {
        var k :| 0 <= k < i && ws[..i][k].blk == b;
        assert ws[k].blk == b;
      }
    }
    SubsetSize(BlocksOf(ws[..i]), BlocksOf(ws));
  }

  lemma BeforeAnyWrite(s: Sys)
    requires CommandReady(s, []) && WellSized(s)
    ensures Unsplit(s, s, [])
  {
    hide Backlog, Quiet, OpenIsFree, Home, View, BacklogOf, ClearOf;
    SettledView(s);
  }

  /** A command whose distinct blocks fit is never split. */
  lemma {:induction false} FittingStaysUnsplit(s: Sys, ws: seq<BlockWrite>)
    requires CommandReady(s, ws) && |BlocksOf(ws)| <= Capacity(s.j.start)
    ensures WellSized(s) && Unsplit(s, ExecWrites(s, ws), ws)
    decreases |ws|
  {
    hide Inv, Good, Home, View, CommitFrom, Unsplit, Exec, BlocksOf;
    ReadyPrefix(s, ws, 0);
    if ws == [] {
      BeforeAnyWrite(s);
    } else {
      var n := |ws| - 1;
      ReadyPrefix(s, ws, n);
      FittingStaysUnsplit(s, ws[..n]);
      UnsplitStep(s, ExecWrites(s, ws[..n]), ws);
    }
  }

  /** Write `i` of the command forces a commit. */
  predicate SplitsAt(s: Sys, ws: seq<BlockWrite>, i: nat)
    requires WellSized(s) && s.j.seqNo + 1 < U32_LIMIT && i < |ws|
    requires forall k :: 0 <= k < |ws| ==> ws[k].blk < |s.d|
  {
    Forces(ExecWrites(s, ws[..i]).j, ws[i].blk)
  }

  /** A command is split across transactions exactly when its distinct blocks do not fit. */
  lemma SplitsIffTooBig(s: Sys, ws: seq<BlockWrite>)
    requires CommandReady(s, ws)
    ensures WellSized(s)
    ensures (exists i: nat :: i < |ws| && SplitsAt(s, ws, i)) <==> |BlocksOf(ws)| > Capacity(s.j.start)
  {
    hide Inv, Good, Home, View, CommitFrom, Unsplit, Exec, BlocksOf, Capacity;
    ReadyPrefix(s, ws, 0);
    if |BlocksOf(ws)| <= Capacity(s.j.start) {
      forall i: nat | i < |ws|
        ensures !SplitsAt(s, ws, i)
      {
        ReadyPrefix(s, ws, i);
        ReadyPrefix(s, ws, i + 1);
        FittingStaysUnsplit(s, ws[..i]);
        assert ws[..i + 1][..i] == ws[..i];
        UnsplitStep(s, ExecWrites(s, ws[..i]), ws[..i + 1]);
      }
    } else {
      var i := FirstTooBig(s, ws);
      assert SplitsAt(s, ws, i);
    }
  }

  lemma {:induction false} FirstTooBig(s: Sys, ws: seq<BlockWrite>) returns (i: nat)
    requires CommandReady(s, ws) && |BlocksOf(ws)| > Capacity(s.j.start)
    ensures WellSized(s) && i < |ws| && SplitsAt(s, ws, i) && |BlocksOf(ws[..i])| <= Capacity(s.j.start)
    decreases |ws|
  {
    hide Inv, Good, Home, View, CommitFrom, Unsplit, Exec, Capacity;
    var n := |ws| - 1;
    ReadyPrefix(s, ws, n);
    if |BlocksOf(ws[..n])| > Capacity(s.j.start) {
      i := FirstTooBig(s, ws[..n]);
      assert ws[..n][..i] == ws[..i];
    } else {
      i := n;
      FittingStaysUnsplit(s, ws[..n]);
      UnsplitStep(s, ExecWrites(s, ws[..n]), ws);
    }
  }

  /** The raw writes of operation `i` of the command; operation `|ws|` is the commit. */
  function CommandOp(ws: seq<BlockWrite>, i: nat): Op
    requires i <= |ws|
  {
    if i < |ws| then Write(ws[i].blk, ws[i].buf) else Commit
  }

  /** Crash atomicity of a command that fits one transaction: wherever power fails, recovery
      finds all home blocks as before the command or as after it, and before the commit starts
      always as before. */
  lemma CommandAtomic(s: Sys, ws: seq<BlockWrite>, i: nat, k: nat, t: nat)
    requires CommandReady(s, ws) && |BlocksOf(ws)| <= Capacity(s.j.start) && i <= |ws| && t <= SECTORS
    ensures var m := ExecWrites(s, ws[..i]);
      && WellSized(m) && m.j.seqNo + 1 < U32_LIMIT
      && (k <= |OpWrites(m, CommandOp(ws, i))| ==>
            var c := Crash(m.d, OpWrites(m, CommandOp(ws, i)), k, t);
            || RecoversTo(c, s.j.base, Home(s.d, s.j.base))
            || (i == |ws| && RecoversTo(c, s.j.base, Overwrite(Home(s.d, s.j.base), ws))))
  {
    hide Good, Home, View, CommitFrom, Backlog, OpenIsFree, Quiet, Exec, Capacity, Crash, RecoversTo, OpWrites;
    ReadyPrefix(s, ws, i);
    FittingStaysUnsplit(s, ws[..i]);
    var m := ExecWrites(s, ws[..i]);
    assert ws[..|ws|] == ws;
    if i < |ws| {
      ReadyPrefix(s, ws, i + 1);
      assert ws[..i + 1][..i] == ws[..i];
      UnsplitStep(s, m, ws[..i + 1]);
    }
    if k <= |OpWrites(m, CommandOp(ws, i))| {
      StepCrash(m, BacklogOf(s), CommandOp(ws, i), k, t);
    }
  }

  /** When the command has run to its end, the home blocks hold all its writes. */
  lemma CommandDurable(s: Sys, ws: seq<BlockWrite>)
    requires CommandReady(s, ws) && |BlocksOf(ws)| <= Capacity(s.j.start)
    ensures var m := ExecWrites(s, ws);
      && WellSized(m) && m.j.seqNo + 1 < U32_LIMIT
      && Home(Exec(m, Commit).d, s.j.base) == Overwrite(Home(s.d, s.j.base), ws)
      && Good(Exec(m, Commit))
  {
    hide Home, View, CommitFrom, Backlog, OpenIsFree, Quiet, Exec, BacklogOf;
    FittingStaysUnsplit(s, ws);
    var m := ExecWrites(s, ws);
    StepKeeps(m, BacklogOf(s), Commit);
    InvIsGood(Exec(m, Commit), NextBacklog(m, BacklogOf(s), Commit));
    if m.j.pend == [] {
      SettledView(m);
    }
  }

  /** A command that does not fit: at its first forced commit the writes made so far become durable by
      themselves. Power failing right then recovers to them and to nothing else of the command. */
  lemma OversizedCommandSplits(s: Sys, ws: seq<BlockWrite>) returns (i: nat)
    requires CommandReady(s, ws) && |BlocksOf(ws)| > Capacity(s.j.start)
    ensures WellSized(s) && i < |ws| && |BlocksOf(ws[..i])| == Capacity(s.j.start) && ws[i].blk !in BlocksOf(ws[..i])
    ensures var m := ExecWrites(s, ws[..i]);
      && WellSized(m) && m.j.seqNo + 1 < U32_LIMIT && |CommitWrites(m.j, m.d)| <= |OpWrites(m, CommandOp(ws, i))|
      && RecoversTo(Crash(m.d, OpWrites(m, CommandOp(ws, i)), |CommitWrites(m.j, m.d)|, 0), s.j.base,
                    Overwrite(Home(s.d, s.j.base), ws[..i]))
  {
    hide Good, Home, View, CommitFrom, Backlog, OpenIsFree, Quiet, Capacity, RecoversTo, BlocksOf, BacklogOf,
         CommitWrites, WriteWrites, Crash, CommittedDisk, CommitJbd, ClearOf;
    i := FirstTooBig(s, ws);
    ReadyPrefix(s, ws, i);
    ReadyPrefix(s, ws, i + 1);
    FittingStaysUnsplit(s, ws[..i]);
    var m := ExecWrites(s, ws[..i]);
    assert ws[..i + 1][..i] == ws[..i];
    ForcesIffTooMany(s, m, ws[..i + 1]);
    SplitPoint(s, m, ws, i);
    CrashAfterForced(m, BacklogOf(s), ws[i].blk, ws[i].buf);
  }

  /** The block that splits the command is a new one, and the transaction is full. */
  lemma SplitPoint(s: Sys, m: Sys, ws: seq<BlockWrite>, i: nat)
    requires WellSized(s) && i < |ws| && Unsplit(s, m, ws[..i]) && Forces(m.j, ws[i].blk) && s.j.start + 2 <= LAST_SLOT
    ensures |BlocksOf(ws[..i])| == Capacity(s.j.start) && ws[i].blk !in BlocksOf(ws[..i])
  {
    FullIffCapacity(m.j);
    FreshIffNew(s, m, ws[..i], ws[i].blk);
    hide Inv, Home, View, BlocksOf;
  }

  /** Power failing between a forced commit and the write that forced it. */
  lemma CrashAfterForced(m: Sys, T: seq<Txn>, blk: nat, buf: Block)
    requires Inv(m, T) && m.j.seqNo + 1 < U32_LIMIT && blk < |m.d| && Forces(m.j, blk)
    ensures var k := |CommitWrites(m.j, m.d)|;
      && k <= |WriteWrites(m, blk, buf)| && RecoversTo(Crash(m.d, WriteWrites(m, blk, buf), k, 0), m.j.base, View(m))
  {
    hide CommitWrites, Chain, Home, View, Backlog, OpenIsFree, Quiet, CommittedDisk, RecoversTo, WriteWrites, Crash,
         Layout;
    FullPending(m, blk);
    CommitDone(m, T);
    ForcedPoint(m, blk, buf);
    RestRecovers(Sys(CommitJbd(m.j), CommittedDisk(m)), []);
  }

  lemma FullPending(m: Sys, blk: nat)
    requires Forces(m.j, blk)
    ensures m.j.pend != []
  {
  }

  /** There the commit is complete. */
  lemma ForcedPoint(m: Sys, blk: nat, buf: Block)
    requires WellSized(m) && Layout(m.j) && m.j.seqNo + 1 < U32_LIMIT && blk < |m.d| && Forces(m.j, blk)
    ensures var k := |CommitWrites(m.j, m.d)|;
      k <= |WriteWrites(m, blk, buf)| && Crash(m.d, WriteWrites(m, blk, buf), k, 0) == CommittedDisk(m)
  {
    hide CommitWrites, CommittedDisk, Crash, Layout;
    FullPending(m, blk);
    var cw, last := CommitWrites(m.j, m.d), RawWrite(m.j.base + LogSlot(m.j), buf);
    assert WriteWrites(m, blk, buf) == cw + [last];
    hide WriteWrites, LogSlot, Forces, WellSized;
    CommitApplied(m);
    CrashConcat(m.d, cw, [last], |cw|, 0);
    NothingTorn(CommittedDisk(m), last);
  }

  lemma NothingTorn(d: Disk, w: RawWrite)
    requires w.blk < |d|
    ensures Crash(d, [w], 0, 0) == d
  {
    TornEnds(d[w.blk], w.data);
    assert [w][..0] == [];
    ApplyNothing(d);
  }

  // ---- the wrap that only memory knows about ----

  /** Writing one block and committing is atomic at every point where power can fail. */
  ghost predicate OneBlockAtomic(s: Sys, blk: nat, buf: Block) {
    && WellSized(s) && s.j.seqNo + 1 < U32_LIMIT && blk < |s.d|
    && var m := Exec(s, Write(blk, buf));
    && WellSized(m) && m.j.seqNo + 1 < U32_LIMIT
    && (forall k: nat, t: nat :: k <= |CommitWrites(m.j, m.d)| && t <= SECTORS ==>
          OldOrNew(Crash(m.d, CommitWrites(m.j, m.d), k, t), s, blk, buf))
  }

  ghost predicate OldOrNew(c: Disk, s: Sys, blk: nat, buf: Block)
    requires blk < |s.d|
  {
    RecoversTo(c, s.j.base, Home(s.d, s.j.base)) || RecoversTo(c, s.j.base, Home(s.d, s.j.base)[blk := buf])
  }

  /** A good system with nothing pending, a superblock that is up to date and a payload that is
      no commit block. */
  ghost predicate OneBlockReady(s: Sys, start: nat, blk: nat, buf: Block) {
    && Good(s) && BacklogOf(s) == [] && s.j.pend == [] && s.j.start == start && s.j.seqNo + 2 < U32_LIMIT
    && blk < |s.d| && blk < U32_LIMIT && !InJournal(s.j.base, blk) && !CommitFrom(buf, s.j.seqNo)
  }

  lemma OneBlockIsAtomic(s: Sys, start: nat, blk: nat, buf: Block)
    requires OneBlockReady(s, start, blk, buf) && start + 2 <= LAST_SLOT
    ensures OneBlockAtomic(s, blk, buf)
  {
    hide Home, View, CommitFrom, Backlog, OpenIsFree, Quiet, Exec, Crash, RecoversTo, BacklogOf, CommitWrites;
    NoFootNoHit(s, blk);
    EmptyFind(blk);
    StepKeeps(s, [], Write(blk, buf));
    SettledView(s);
    var m := Exec(s, Write(blk, buf));
    ExecSeq(s, blk, buf);
    forall k: nat, t: nat | k <= |CommitWrites(m.j, m.d)| && t <= SECTORS
      ensures OldOrNew(Crash(m.d, CommitWrites(m.j, m.d), k, t), s, blk, buf)
    {
      StepCrash(m, [], Commit, k, t);
    }
  }

  lemma ExecSeq(s: Sys, blk: nat, buf: Block)
    requires WellSized(s) && s.j.seqNo + 1 < U32_LIMIT && blk < |s.d| && !Forces(s.j, blk)
    ensures Exec(s, Write(blk, buf)).j.seqNo == s.j.seqNo
  {
  }

  /** A small disk: block 0 is the only home block in use, the journal follows. */
  const DEMO_BASE: nat := 1
  const DEMO_SIZE: nat := 1030

  function DemoSuper(start: nat): Block
    requires start <= LAST_SLOT
  {
    W32(W32(W32(ZERO_BLOCK, 0, MAGIC), 8, 1), 12, start)
  }

  function ZeroDisk(n: nat): (d: Disk)
    ensures |d| == n && forall i :: 0 <= i < n ==> d[i] == ZERO_BLOCK
  {
    if n == 0 then [] else ZeroDisk(n - 1) + [ZERO_BLOCK]
  }

  /** A disk of zeros but for the journal superblock. */
  function BlankJournal(size: nat, base: nat, start: nat): (d: Disk)
    requires start <= LAST_SLOT && base < size
    ensures |d| == size
    ensures forall i :: 0 <= i < size ==> d[i] == if i == base then DemoSuper(start) else ZERO_BLOCK
  {
    ZeroDisk(size)[base := DemoSuper(start)]
  }

  function DemoDisk(start: nat): (d: Disk)
    requires start <= LAST_SLOT
    ensures |d| == DEMO_SIZE
    ensures forall i :: 0 <= i < DEMO_SIZE ==> d[i] == if i == DEMO_BASE then DemoSuper(start) else ZERO_BLOCK
  {
    BlankJournal(DEMO_SIZE, DEMO_BASE, start)
  }

  function Filled(n: nat): (b: seq<Byte>)
    ensures |b| == n && forall i :: 0 <= i < n ==> b[i] == 1
  {
    if n == 0 then [] else Filled(n - 1) + [1]
  }

  function FilledBlock(): (b: Block)
    ensures forall i :: 0 <= i < BLOCK ==> b[i] == 1
  {
    Filled(BLOCK)
  }

  lemma ZeroField(o: nat)
    requires o + 4 <= BLOCK
    ensures R32(ZERO_BLOCK, o) == 0
  {
  }

  lemma DemoSuperFields(start: nat)
    requires start <= LAST_SLOT
    ensures R32(DemoSuper(start), 0) == MAGIC && SuperSeq(DemoSuper(start)) == 1
    ensures SuperStart(DemoSuper(start)) == if start == 0 then 1 else start
  {
    var a := W32(ZERO_BLOCK, 0, MAGIC);
    var b := W32(a, 8, 1);
    var c := W32(b, 12, start);
    assert R32(c, 0) == R32(b, 0) == R32(a, 0);
    assert R32(c, 8) == R32(b, 8);
  }

  /** The freshly mounted demo disk is good. */
  lemma DemoGood(start: nat)
    requires start <= LAST_SLOT
    ensures var s := Mounted(DemoDisk(start), DEMO_BASE);
      && s == Sys(Jbd(DEMO_BASE, if start == 0 then 1 else start, 1, []), DemoDisk(start))
      && Inv(s, []) && Good(s) && BacklogOf(s) == []
  {
    hide Mount, BacklogOf, Inv, Good;
    BlankGood(DEMO_SIZE, DEMO_BASE, start);
  }

  lemma BlankGood(size: nat, base: nat, start: nat)
    requires start <= LAST_SLOT && base + JOURNAL_BLOCKS + 2 <= size
    ensures var s := Mounted(BlankJournal(size, base, start), base);
      && s == Sys(Jbd(base, if start == 0 then 1 else start, 1, []), BlankJournal(size, base, start))
      && Inv(s, []) && Good(s) && BacklogOf(s) == []
  {
    hide Mount, SuperSeq, SuperStart, BacklogOf;
    var d := BlankJournal(size, base, start);
    DemoSuperFields(start);
    ZeroField(0);
    assert Quiet(d, base, 1);
    QuietMeansNoTxn(d, base, SuperStart(d[base]), 1);
    assert Recovers(d, base, [], SuperStart(d[base]), 1);
    MountRecovers(d, base, [], SuperStart(d[base]), 1);
    RecoveredInv(d, base, [], SuperStart(d[base]), 1);
    ApplyNothing(d);
    InvIsGood(Mounted(d, base), []);
  }

  /** Power fails after the seal and half of the first home block. */
  lemma HalfHome(m: Sys, w: RawWrite)
    requires WellSized(m) && Layout(m.j) && m.j.seqNo + 1 < U32_LIMIT && m.j.pend != []
    requires OpenTxn(m)[0] == w && !InJournal(m.j.base, w.blk) && w.blk < |m.d|
    ensures 2 <= |CommitWrites(m.j, m.d)|
    ensures Crash(m.d, CommitWrites(m.j, m.d), 2, 4) == SealedDisk(m)[w.blk := Torn(m.d[w.blk], w.data, 4)]
  {
    hide EncodeDesc, EncodeCommit, EncodeSuper, Checksum, SealedDisk, CommitWrites, Layout;
    CommitShape(m);
    SealApplied(m);
    OpenTxnClean(m);
    var seals, t, super := SealWrites(m.j, m.d), OpenTxn(m), [SuperWrite(m.j, m.d)];
    assert CommitWrites(m.j, m.d) == seals + (t + super);
    CrashConcat(m.d, seals, t + super, 2, 4);
    assert (t + super)[..0] == [] && (t + super)[0] == w;
    ApplyNothing(SealedDisk(m));
    SealKeepsHome(m, w.blk);
  }

  /** Block 0 half rewritten, by a transaction sealed at slot 1 that the superblock, still
      pointing at slot `start`, does not lead to. */
  lemma LostTransaction(start: nat) returns (s: Sys, c: Disk)
    requires start == 1022 || start == 1023
    ensures OneBlockReady(s, start, 0, FilledBlock())
    ensures var m := Exec(s, Write(0, FilledBlock()));
      && WellSized(m) && m.j.seqNo + 1 < U32_LIMIT
      && 2 <= |CommitWrites(m.j, m.d)| && c == Crash(m.d, CommitWrites(m.j, m.d), 2, 4)
    ensures !OldOrNew(c, s, 0, FilledBlock())
  {
    hide SealedDisk, CommitWrites, CommitFrom, SuperSeq, SuperStart, BacklogOf, OldOrNew, Good, Inv, Exec, Crash,
         OneBlockReady, Mount, DemoDisk, FilledBlock, OpenTxn, Home, RecoversTo, DemoSuper, Torn, Replay;
    var buf := FilledBlock();
    s := Mounted(DemoDisk(start), DEMO_BASE);
    LostReady(start, s);
    LosingWrite(start, s);
    var m := Exec(s, Write(0, buf));
    LogsAtTwo(s, m);
    HalfHome(m, RawWrite(0, buf));
    c := Crash(m.d, CommitWrites(m.j, m.d), 2, 4);
    LostAtMount(start, s, m, c);
    NotOldOrNew(s, c, buf);
  }

  lemma LostReady(start: nat, s: Sys)
    requires (start == 1022 || start == 1023) && s == Mounted(DemoDisk(start), DEMO_BASE)
    ensures s == Sys(Jbd(DEMO_BASE, start, 1, []), DemoDisk(start)) && OneBlockReady(s, start, 0, FilledBlock())
  {
    hide Inv, Good, BacklogOf, Mounted, CommitFrom, DemoDisk, FilledBlock;
    DemoGood(start);
    FilledIsNoCommit();
  }

  lemma LogsAtTwo(s: Sys, m: Sys)
    requires |s.d| == DEMO_SIZE && m == Sys(Jbd(DEMO_BASE, 1, 1, [Pend(0, 2)]), s.d[3 := FilledBlock()])
      && WellSized(m) && Layout(m.j)
    ensures OpenTxn(m) == [RawWrite(0, FilledBlock())] && !InJournal(m.j.base, 0) && m.j.pend != [] && m.j.seqNo == 1
      && |m.d| == DEMO_SIZE
  {
    hide FilledBlock;
  }

  lemma FilledIsNoCommit()
    ensures !CommitFrom(FilledBlock(), 1)
  {
  }

  /** The first write on a demo system is logged at slot 2. */
  lemma DemoWrite(s: Sys)
    requires s.j == Jbd(DEMO_BASE, s.j.start, 1, []) && |s.d| == DEMO_SIZE
    requires s.j.start == 1 || s.j.start == 1022 || s.j.start == 1023
    ensures WellSized(s)
    ensures Exec(s, Write(0, FilledBlock())) == Sys(Jbd(DEMO_BASE, 1, 1, [Pend(0, 2)]), s.d[3 := FilledBlock()])
  {
    hide CommitWrites, FilledBlock;
    EmptyFind(0);
    var ws := WriteWrites(s, 0, FilledBlock());
    assert ws == [RawWrite(3, FilledBlock())];
    ApplyOne(s.d, ws[0]);
  }

  lemma LosingWrite(start: nat, s: Sys)
    requires (start == 1022 || start == 1023) && s == Sys(Jbd(DEMO_BASE, start, 1, []), DemoDisk(start))
    ensures WellSized(s)
    ensures var m := Exec(s, Write(0, FilledBlock()));
      && m == Sys(Jbd(DEMO_BASE, 1, 1, [Pend(0, 2)]), s.d[3 := FilledBlock()])
      && WellSized(m) && Layout(m.j)
  {
    DemoWrite(s);
  }

  lemma SealKeepsHome(m: Sys, blk: nat)
    requires WellSized(m) && Layout(m.j) && m.j.pend != [] && m.j.seqNo < U32_LIMIT
    requires blk < |m.d| && !InJournal(m.j.base, blk)
    ensures SealedDisk(m)[blk] == m.d[blk]
  {
    hide EncodeDesc, EncodeCommit, Checksum;
  }

  /** Recovery looks at slot 1022 or 1023, finds a zero block, and replays nothing. */
  lemma LostAtMount(start: nat, s: Sys, m: Sys, c: Disk)
    requires (start == 1022 || start == 1023) && s == Sys(Jbd(DEMO_BASE, start, 1, []), DemoDisk(start))
    requires m == Sys(Jbd(DEMO_BASE, 1, 1, [Pend(0, 2)]), s.d[3 := FilledBlock()]) && WellSized(m)
    requires |c| == |SealedDisk(m)| && forall i :: 0 < i < |c| ==> c[i] == SealedDisk(m)[i]
    ensures Fits(c, DEMO_BASE) && Mounted(c, DEMO_BASE).d == c
  {
    hide EncodeDesc, EncodeCommit, Checksum, R32, SuperSeq, SuperStart, Replay;
    DemoSuperFields(start);
    assert c[DEMO_BASE] == DemoSuper(start);
    assert start == 1022 ==> c[1023] == ZERO_BLOCK;
    ZeroField(0);
    NoTxnHere(c, start);
    assert Recovers(c, DEMO_BASE, [], start, 1);
    MountRecovers(c, DEMO_BASE, [], start, 1);
    ApplyNothing(c);
  }

  lemma NoTxnHere(c: Disk, start: nat)
    requires Fits(c, DEMO_BASE) && (start == 1023 || (start == 1022 && R32(c[1023], 0) == 0))
    ensures TxnAt(c, DEMO_BASE, start, 1) == None
  {
    hide Checksum, TxnWrites;
  }

  lemma RecoveredHome(c: Disk, base: nat, h: Disk)
    requires RecoversTo(c, base, h)
    ensures Fits(c, base) && Home(Mounted(c, base).d, base) == h
  {
  }

  lemma NotOldOrNew(s: Sys, c: Disk, buf: Block)
    requires |s.d| == DEMO_SIZE == |c| && s.j.base == DEMO_BASE && s.d[0] == ZERO_BLOCK && buf[4095] == 1
    requires Fits(c, DEMO_BASE) && Mounted(c, DEMO_BASE).d == c && c[0][0] == 1 && c[0][4095] == 0
    ensures !OldOrNew(c, s, 0, buf)
  {
    hide Mounted, RecoversTo;
    var h := Home(s.d, DEMO_BASE);
    assert ZERO_BLOCK[0] == 0;
    assert Home(c, DEMO_BASE)[0] == c[0] && h[0] == ZERO_BLOCK && h[0 := buf][0] == buf;
    if RecoversTo(c, DEMO_BASE, h) {
      RecoveredHome(c, DEMO_BASE, h);
    } else if RecoversTo(c, DEMO_BASE, h[0 := buf]) {
      RecoveredHome(c, DEMO_BASE, h[0 := buf]);
    }
  }

  /** The wrap guard is exact: one-block commands begun with the ring position at `start` are
      atomic on every good disk if and only if the position needs no wrap. */
  lemma WrapGuardIsExact(start: nat)
    requires 1 <= start <= LAST_SLOT
    ensures (forall s: Sys, blk: nat, buf: Block :: OneBlockReady(s, start, blk, buf) ==> OneBlockAtomic(s, blk, buf))
            <==> start + 2 <= LAST_SLOT
  {
    if start + 2 <= LAST_SLOT {
      forall s: Sys, blk: nat, buf: Block | OneBlockReady(s, start, blk, buf)
        ensures OneBlockAtomic(s, blk, buf)
      {
        OneBlockIsAtomic(s, start, blk, buf);
      }
    } else {
      var s, c := LostTransaction(start);
      hide OneBlockReady, OldOrNew, CommitWrites, Crash, Exec;
      assert !OneBlockAtomic(s, 0, FilledBlock());
    }
  }

  // ---- the overrun ----

  /** The overrun guard is exact: a fresh block is logged inside the ring if and only if the
      transaction did not begin at slot 1 and reach 1020 blocks. */
  lemma OverrunGuardIsExact(j: Jbd, blk: nat)
    requires Layout(j) && 1 <= j.start <= LAST_SLOT && |j.pend| <= MAX_PEND && Fresh(j, blk)
    ensures InJournal(j.base, j.base + LogSlot(j)) <==> !Overruns(j, blk)
  {
  }

  /** In the overrun the new contents of `blk` land in the block behind the journal. */
  lemma OverrunClobbers(s: Sys, T: seq<Txn>, blk: nat, buf: Block)
    requires Inv(s, T) && s.j.seqNo + 1 < U32_LIMIT && blk < |s.d| && !InJournal(s.j.base, blk) && Overruns(s.j, blk)
    ensures !InJournal(s.j.base, s.j.base + JOURNAL_BLOCKS)
    ensures Exec(s, Write(blk, buf)).d[s.j.base + JOURNAL_BLOCKS] == buf
  {
    hide CommitWrites, Backlog, OpenIsFree, Quiet;
    var ws := WriteWrites(s, blk, buf);
    ApplyHit(s.d, ws, |ws| - 1);
  }

  lemma SealKeepsSuper(m: Sys)
    requires WellSized(m) && m.j.pend != [] && m.j.seqNo < U32_LIMIT
    ensures SealedDisk(m)[m.j.base] == m.d[m.j.base]
  {
    hide EncodeDesc, EncodeCommit, Checksum;
  }

  lemma HomeAt(d: Disk, base: nat, blk: nat)
    requires blk < |d| && !InJournal(base, blk)
    ensures Home(d, base)[blk] == d[blk]
  {
  }

  // ---- torn or corrupt transactions ----

  lemma SealTornWhole(m: Sys)
    requires WellSized(m) && m.j.pend != [] && m.j.seqNo < U32_LIMIT
    ensures HomesApart(m, SealedDisk(m), SECTORS)
  {
    hide EncodeDesc, EncodeCommit, Checksum;
    TornEnds(m.d[m.j.base + m.j.start + 1 + |m.j.pend|], SealOf(m));
  }

  /** One changed byte in a logged data block makes recovery reject the transaction. */
  lemma ChangedDataRejected(d: Disk, base: nat, start: nat, seqNo: nat, k: nat, p: nat, b: Byte)
    requires Fits(d, base) && TxnAt(d, base, start, seqNo).Some?
    requires k < |TxnAt(d, base, start, seqNo).value| && p < BLOCK && d[base + start + 1 + k][p] != b
    ensures var at := base + start + 1 + k;
            TxnAt(d[at := d[at][p := b]], base, start, seqNo) == None
  {
    hide Checksum, IsDesc, IsCommit, TxnWrites;
    var at := base + start + 1 + k;
    var c := d[at := d[at][p := b]];
    var n := R32(d[base + start], 12);
    var data := d[base + start + 1..base + start + 1 + n];
    ChangedDataByte(d[base + start], data, k, p, b);
    assert c[base + start + 1..base + start + 1 + n] == data[k := data[k][p := b]];
  }

  /** No ring block but `at` is a commit block with this number. */
  ghost predicate OneSeal(d: Disk, base: nat, at: nat, seqNo: nat)
    requires Fits(d, base)
  {
    forall blk: nat :: base < blk < base + JOURNAL_BLOCKS && blk != at ==> !IsCommit(d[blk], seqNo)
  }

  /** One changed byte in the descriptor makes recovery reject the transaction, whichever byte it is.
      Where the block count changes, recovery looks for the commit block in another slot. */
  lemma ChangedDescRejected(d: Disk, base: nat, start: nat, seqNo: nat, p: nat, b: Byte)
    requires Fits(d, base) && 1 <= start && TxnAt(d, base, start, seqNo).Some?
    requires OneSeal(d, base, base + start + 1 + |TxnAt(d, base, start, seqNo).value|, seqNo)
    requires p < BLOCK && d[base + start][p] != b
    ensures TxnAt(d[base + start := d[base + start][p := b]], base, start, seqNo) == None
  {
    hide Checksum, IsCommit, TxnWrites;
    var c := d[base + start := d[base + start][p := b]];
    var n := R32(d[base + start], 12);
    if p < 12 {
      DescFieldChanged(d[base + start], seqNo, p, b);
    } else if p < 16 {
      FieldChanged(d[base + start], 12, p, b);
      assert R32(c[base + start], 12) != n;
    } else {
      ChangedDescByte(d[base + start], d[base + start + 1..base + start + 1 + n], p, b);
      assert R32(c[base + start], 12) == n;
      assert c[base + start + 1..base + start + 1 + n] == d[base + start + 1..base + start + 1 + n];
    }
  }

  /** A sealed transaction has only its own commit block. */
  lemma SealIsAlone(s: Sys, T: seq<Txn>)
    requires Inv(s, T) && s.j.pend != [] && s.j.seqNo < U32_LIMIT
    ensures OneSeal(SealedDisk(s), s.j.base, s.j.base + s.j.start + 1 + |s.j.pend|, s.j.seqNo)
  {
    hide EncodeDesc, EncodeCommit, Checksum, Chain, InFoot;
    DescRoundTrip(s.j.seqNo, Blks(s.j.pend));
    forall blk: nat | s.j.base < blk < s.j.base + JOURNAL_BLOCKS && blk != s.j.base + s.j.start + 1 + |s.j.pend|
      ensures !IsCommit(SealedDisk(s)[blk], s.j.seqNo)
    {
      assert !CommitFrom(s.d[blk], s.j.seqNo);
    }
  }

  /** So recovery rejects a transaction this journal sealed if any one byte of its descriptor is changed. */
  lemma SealedDescRejected(s: Sys, T: seq<Txn>, p: nat, b: Byte)
    requires Inv(s, T) && s.j.pend != [] && s.j.seqNo < U32_LIMIT
    requires p < BLOCK && SealedDisk(s)[s.j.base + s.j.start][p] != b
    ensures var d, at := SealedDisk(s), s.j.base + s.j.start;
            TxnAt(d[at := d[at][p := b]], s.j.base, s.j.start, s.j.seqNo) == None
  {
    hide EncodeDesc, EncodeCommit, Checksum, SealedDisk, TxnAt, SealedAt, Backlog, OpenIsFree, Quiet, OneSeal,
         OpenTxn;
    SealTornWhole(s);
    SealedAfterSeal(s, SECTORS, SealedDisk(s));
    SealedTxn(s, SealedDisk(s));
    SealIsAlone(s, T);
    ChangedDescRejected(SealedDisk(s), s.j.base, s.j.start, s.j.seqNo, p, b);
  }

  lemma DescFieldChanged(desc: Block, seqNo: nat, p: nat, b: Byte)
    requires IsDesc(desc, seqNo) && p < 12 && desc[p] != b
    ensures !IsDesc(desc[p := b], seqNo)
  {
    var o := p / 4 * 4;
    var c := desc[p := b];
    FieldChanged(desc, o, p, b);
    assert o == 0 || o == 4 || o == 8;
  }

  lemma FieldChanged(b: Block, o: nat, p: nat, v: Byte)
    requires o <= p < o + 4 && o + 4 <= BLOCK && b[p] != v
    ensures R32(b[p := v], o) != R32(b, o)
  {
  }
}
