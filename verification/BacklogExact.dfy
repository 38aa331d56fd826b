/** The backlog guard on every disk: whatever the ring holds, commands of so many blocks are atomic if and
    only if their slots stay clear of the transactions the superblock still points at. */
module BacklogExact {
  import opened Bytes
  import opened Collections
  import opened Wrappers
  import opened Disk
  import opened JournalFormat
  import opened Journal
  import opened JournalCrash
  import opened JournalRun
  import opened JournalExact
  import opened JournalGuards
  import opened BacklogGuard

  /** The backlog has not run into itself: from the next slot on, none of it lies before the slot the
      superblock points at or, if that slot is behind, before the end of the ring. */
  ghost predicate Unlapped(s: Sys)
    requires Fits(s.d, s.j.base)
  {
    var s0 := SuperStart(s.d[s.j.base]);
    forall b: nat :: InFoot(b, s.j.base, s0, BacklogOf(s)) ==>
      b < s.j.base + s.j.start || (s.j.start <= s0 && s.j.base + s0 <= b)
  }

  // ---- a command that differs from any disk ----

  /** The `k`-th block outside the journal. */
  function Spot(base: nat, k: nat): (b: nat)
    ensures !InJournal(base, b) && b <= k + JOURNAL_BLOCKS
  {
    if k < base then k else k + JOURNAL_BLOCKS
  }

  /** A block that differs from `o` at both ends and looks like no descriptor and no commit block. */
  function Differing(o: Block): (b: Block)
    ensures b[0] != o[0] && b[4095] != o[4095]
    ensures forall q: nat :: !IsDesc(b, q) && !CommitFrom(b, q)
  {
    var b := FilledBlock()[0 := if o[0] == 1 then 2 else 1][4095 := if o[4095] == 1 then 2 else 1];
    assert b[1] == b[2] == b[3] == 1;
    b
  }

  /** A command of `n` blocks. */
  function Anew(base: nat, o: Block, n: nat): (ws: seq<BlockWrite>)
    ensures |ws| == n
    ensures forall k :: 0 <= k < n ==>
              ws[k] == BlockWrite(Spot(base, k), if k == 0 then Differing(o) else FilledBlock())
  {
    seq(n, k requires 0 <= k < n => BlockWrite(Spot(base, k), if k == 0 then Differing(o) else FilledBlock()))
  }

  lemma AnewFacts(s: Sys, o: Block, n: nat)
    requires JOURNAL_BLOCKS + n <= |s.d| && n <= MAX_PEND
    ensures Plain(s, Anew(s.j.base, o, n)) && |BlocksOf(Anew(s.j.base, o, n))| == n
  {
    hide FilledBlock, Differing, CommitFrom;
    var ws := Anew(s.j.base, o, n);
    var t := TargetsOf(ws);
    FilledIsPlain(s.j.seqNo);
    assert Distinct(t);
    DistinctSize(t);
    TargetBlocks(ws);
  }

  lemma FilledIsPlain(q: nat)
    ensures !CommitFrom(FilledBlock(), q) && !IsDesc(FilledBlock(), q)
  {
  }

  // ---- logging it ----

  function Pends(start: nat, ws: seq<BlockWrite>): (p: seq<Pend>)
    ensures |p| == |ws| && forall k :: 0 <= k < |p| ==> p[k] == Pend(ws[k].blk, start + 1 + k)
  {
    seq(|ws|, k requires 0 <= k < |ws| => Pend(ws[k].blk, start + 1 + k))
  }

  /** The first `i` blocks are logged to the slots behind that of the descriptor. */
  ghost predicate LoggedTo(s: Sys, m: Sys, ws: seq<BlockWrite>, i: nat) {
    && i <= |ws| && m.j == s.j.(pend := Pends(s.j.start, ws[..i])) && |m.d| == |s.d|
    && var at := s.j.base + s.j.start + 1;
       forall b: nat :: b < |m.d| ==> m.d[b] == if at <= b < at + i then ws[b - at].buf else s.d[b]
  }

  /** Distinct blocks of the disk, outside the journal, that fit one transaction. */
  ghost predicate Loggable(s: Sys, ws: seq<BlockWrite>) {
    && WellSized(s) && s.j.pend == [] && s.j.seqNo + 1 < U32_LIMIT && s.j.start + 2 <= LAST_SLOT
    && |ws| <= Capacity(s.j.start) && InPlace(|s.d|, s.j.base, TargetsOf(ws)) && Distinct(TargetsOf(ws))
  }

  lemma InRangeTargets(s: Sys, ws: seq<BlockWrite>)
    requires InPlace(|s.d|, s.j.base, TargetsOf(ws))
    ensures forall k :: 0 <= k < |ws| ==>
              ws[k].blk < |s.d| && ws[k].blk < U32_LIMIT && !InJournal(s.j.base, ws[k].blk)
  {
    assert forall k :: 0 <= k < |ws| ==> TargetsOf(ws)[k] == ws[k].blk;
  }

  lemma {:induction false} LogsAll(s: Sys, ws: seq<BlockWrite>, i: nat)
    requires Loggable(s, ws) && i <= |ws|
    ensures forall k :: 0 <= k < |ws| ==> ws[k].blk < |s.d|
    ensures LoggedTo(s, ExecWrites(s, ws[..i]), ws, i)
    decreases i
  {
    InRangeTargets(s, ws);
    if i > 0 {
      LogsAll(s, ws, i - 1);
      LogsNext(s, ExecWrites(s, ws[..i - 1]), ws, i - 1);
      assert ws[..i][..i - 1] == ws[..i - 1];
    } else {
      assert Pends(s.j.start, ws[..0]) == [];
    }
  }

  /** Logging a new block while there is room. */
  lemma LogsRaw(m: Sys, blk: nat, buf: Block)
    requires WellSized(m) && m.j.seqNo + 1 < U32_LIMIT && blk < |m.d| && !InJournal(m.j.base, blk)
      && FindPend(m.j.pend, blk) == None
    requires !MustCommit(m.j)
    ensures Exec(m, Write(blk, buf)) == Sys(WriteJbd(m.j, blk), m.d[m.j.base + LogSlot(m.j) := buf])
  {
    hide CommitWrites;
    ApplyOne(m.d, RawWrite(m.j.base + LogSlot(m.j), buf));
    assert WriteWrites(m, blk, buf) == [RawWrite(m.j.base + LogSlot(m.j), buf)];
  }

  lemma LogsNext(s: Sys, m: Sys, ws: seq<BlockWrite>, i: nat)
    requires Loggable(s, ws) && i < |ws| && LoggedTo(s, m, ws, i)
    ensures WellSized(m) && m.j.seqNo + 1 < U32_LIMIT && ws[i].blk < |m.d|
    ensures LoggedTo(s, Exec(m, Write(ws[i].blk, ws[i].buf)), ws, i + 1)
  {
    hide Exec, Distinct;
    InRangeTargets(s, ws);
    FreshNext(s.j.start, ws, i);
    LogsRaw(m, ws[i].blk, ws[i].buf);
    assert Pends(s.j.start, ws[..i + 1]) == Pends(s.j.start, ws[..i]) + [Pend(ws[i].blk, s.j.start + 1 + i)];
  }

  lemma FreshNext(start: nat, ws: seq<BlockWrite>, i: nat)
    requires Distinct(TargetsOf(ws)) && i < |ws|
    ensures FindPend(Pends(start, ws[..i]), ws[i].blk) == None
  {
    var p, t := Pends(start, ws[..i]), TargetsOf(ws);
    assert forall k :: 0 <= k < |p| ==> p[k].blk == ws[k].blk == t[k] && t[k] != t[i];
  }

  lemma LoggedShape(s: Sys, m: Sys, ws: seq<BlockWrite>)
    requires Loggable(s, ws) && ws != [] && LoggedTo(s, m, ws, |ws|)
    ensures WellSized(m) && Layout(m.j) && m.j.pend != [] && |m.j.pend| == |ws|
    ensures OpenTxn(m)[0] == RawWrite(ws[0].blk, ws[0].buf)
  {
    InRangeTargets(s, ws);
    var t := TargetsOf(ws);
    assert ws[..|ws|] == ws;
    forall i, k | 0 <= i < k < |ws|
      ensures m.j.pend[i].blk != m.j.pend[k].blk
    {
      assert t[i] != t[k];
    }
  }

  // ---- the half-done transaction is not found ----

  /** The descriptor at the slot the superblock points at is overwritten. */
  lemma FirstIsGone(s: Sys, m: Sys, ws: seq<BlockWrite>, s0: nat, q0: nat)
    requires Loggable(s, ws) && ws != [] && LoggedTo(s, m, ws, |ws|) && WellSized(m) && Layout(m.j) && m.j.pend != []
      && |m.j.pend| == |ws|
    requires s.j.start <= s0 <= s.j.start + 1 + |ws| && q0 < s.j.seqNo
    requires forall k :: 0 <= k < |ws| ==> !IsDesc(ws[k].buf, q0)
    ensures !IsDesc(SealedDisk(m)[s.j.base + s0], q0)
  {
    hide EncodeDesc, EncodeCommit, Checksum, Capacity, TargetsOf, InPlace, Distinct, IsDesc, IsCommit;
    var at, b := s.j.base + s.j.start, s.j.base + s0;
    DescRoundTrip(m.j.seqNo, Blks(m.j.pend));
    CommitRoundTrip(m.j.seqNo, Checksum(DescOf(m.j), Logged(m.j, m.d)), |ws|);
    if b == at {
      OneNumber(SealedDisk(m)[b], m.j.seqNo, q0);
    } else if b == at + 1 + |ws| {
      NotBoth(SealedDisk(m)[b], m.j.seqNo, q0);
    } else {
      assert m.d[b] == ws[b - at - 1].buf;
    }
  }

  lemma OneNumber(b: Block, q: nat, q0: nat)
    requires IsDesc(b, q) && q0 != q
    ensures !IsDesc(b, q0)
  {
  }

  lemma NotBoth(b: Block, q: nat, q0: nat)
    requires IsCommit(b, q)
    ensures !IsDesc(b, q0)
  {
  }

  lemma NothingReplayed(c: Disk, base: nat)
    requires Fits(c, base) && R32(c[base], 0) == MAGIC && SuperStart(c[base]) <= LAST_SLOT
    requires !IsDesc(c[base + SuperStart(c[base])], SuperSeq(c[base]))
    ensures Mounted(c, base).d == c
  {
    hide IsDesc, Checksum, Replay, TxnWrites, SuperSeq, SuperStart;
    var s0, q0 := SuperStart(c[base]), SuperSeq(c[base]);
    assert TxnAt(c, base, s0, q0) == None;
    assert Recovers(c, base, [], s0, q0);
    MountRecovers(c, base, [], s0, q0);
    ApplyNothing(c);
  }

  lemma {:induction false} FirstStays(h: Disk, ws: seq<BlockWrite>)
    requires ws != [] && ws[0].blk < |h| && forall k :: 0 < k < |ws| ==> ws[k].blk != ws[0].blk
    ensures Overwrite(h, ws)[ws[0].blk] == ws[0].buf
    decreases |ws|
  {
    var n := |ws| - 1;
    if n > 0 {
      FirstStays(h, ws[..n]);
    } else {
      assert ws[..0] == [];
    }
  }

  /** Neither the old block nor the new one. */
  lemma TornIsNeither(s: Sys, c: Disk, ws: seq<BlockWrite>)
    requires Fits(s.d, s.j.base) && |c| == |s.d| && Mounted(c, s.j.base).d == c
    requires ws != [] && ws[0].blk < |c| && !InJournal(s.j.base, ws[0].blk)
    requires forall k :: 0 < k < |ws| ==> ws[k].blk != ws[0].blk
    requires var o, b := s.d[ws[0].blk], ws[0].buf; c[ws[0].blk] == Torn(o, b, 4) && b[0] != o[0] && b[4095] != o[4095]
    ensures !OldOrWhole(c, s, ws)
  {
    hide Mounted, RecoversTo, Overwrite;
    var h, base, blk := Home(s.d, s.j.base), s.j.base, ws[0].blk;
    FirstStays(h, ws);
    assert c[blk][0] == ws[0].buf[0] && c[blk][4095] == s.d[blk][4095];
    assert Home(c, base)[blk] == c[blk] && h[blk] == s.d[blk];
    if RecoversTo(c, base, h) {
      RecoveredHome(c, base, h);
    }
    if RecoversTo(c, base, Overwrite(h, ws)) {
      RecoveredHome(c, base, Overwrite(h, ws));
    }
  }

  /** A command that reaches the slot the superblock points at, while power fails after its seal and
      half of its first home block. */
  lemma ReachedIsTorn(s: Sys, ws: seq<BlockWrite>, s0: nat, q0: nat)
    requires Loggable(s, ws) && ws != [] && R32(s.d[s.j.base], 0) == MAGIC
    requires SuperStart(s.d[s.j.base]) == s0 && SuperSeq(s.d[s.j.base]) == q0 < s.j.seqNo
      && s.j.start <= s0 <= s.j.start + 1 + |ws|
    requires forall k :: 0 <= k < |ws| ==> !IsDesc(ws[k].buf, q0) && ws[k].blk < |s.d|
    requires var o := s.d[ws[0].blk]; ws[0].buf[0] != o[0] && ws[0].buf[4095] != o[4095]
    ensures !IsAtomic(s, ws)
  {
    hide IsDesc, SuperSeq, SuperStart, R32, LoggedTo, CommitWrites, SealedDisk, Crash, OldOrWhole, ExecWrites, Torn,
         OpenTxn, Mounted, Capacity, Layout;
    var n := |ws|;
    assert ws[..n] == ws;
    LogsAll(s, ws, n);
    InRangeTargets(s, ws);
    var m := ExecWrites(s, ws);
    LoggedShape(s, m, ws);
    LoggedRest(s, m, ws);
    FirstIsGone(s, m, ws, s0, q0);
    HalfHome(m, RawWrite(ws[0].blk, ws[0].buf));
    SealKeepsSuper(m);
    var c := Crash(m.d, CommitWrites(m.j, m.d), 2, 4);
    ApartTargets(ws);
    NothingReplayed(c, s.j.base);
    TornIsNeither(s, c, ws);
    NotAtCommit(s, ws, 2, 4);
  }

  lemma ApartTargets(ws: seq<BlockWrite>)
    requires Distinct(TargetsOf(ws))
    ensures forall k :: 0 < k < |ws| ==> ws[k].blk != ws[0].blk
  {
    assert forall k :: 0 <= k < |ws| ==> TargetsOf(ws)[k] == ws[k].blk;
  }

  lemma LoggedRest(s: Sys, m: Sys, ws: seq<BlockWrite>)
    requires Loggable(s, ws) && LoggedTo(s, m, ws, |ws|) && ws != []
    ensures m.j.base == s.j.base && m.j.seqNo == s.j.seqNo && |m.d| == |s.d| && m.d[s.j.base] == s.d[s.j.base]
    ensures ws[0].blk < |s.d| && m.d[ws[0].blk] == s.d[ws[0].blk]
  {
    InRangeTargets(s, ws);
  }

  /** The superblock points at the first transaction of the backlog, numbered below the open one. */
  lemma BacklogBegins(s: Sys)
    requires Good(s) && BacklogOf(s) != []
    ensures R32(s.d[s.j.base], 0) == MAGIC && SuperSeq(s.d[s.j.base]) < s.j.seqNo
  {
    hide TxnAt, Chain, Quiet, OpenIsFree, SuperSeq, SuperStart, ScanBacklog, R32;
    var sb := s.d[s.j.base];
    ScanIsChain(s.d, s.j.base, SuperStart(sb), SuperSeq(sb), BacklogOf(s), s.j.start, s.j.seqNo);
  }

  /** The backlog guard is exact on every disk. In a good system with nothing pending, all commands of `n`
      blocks are atomic if and only if a transaction of `n` blocks stays clear of the backlog. */
  lemma ClearIsExact(s: Sys, n: nat)
    requires Good(s) && s.j.pend == [] && Unlapped(s) && s.j.start + 2 <= LAST_SLOT && s.j.seqNo + 2 < U32_LIMIT
    requires 1 <= n <= Capacity(s.j.start) && JOURNAL_BLOCKS + n <= |s.d|
    ensures (forall ws: seq<BlockWrite> :: Plain(s, ws) && |BlocksOf(ws)| == n ==> IsAtomic(s, ws)) <==> ClearOf(s, n)
  {
    hide IsAtomic, Plain, BlocksOf, Good, Capacity, InFoot, BacklogOf, SuperSeq, SuperStart, R32, IsDesc, CommitFrom,
         Differing, FilledBlock, TargetsOf, InPlace, Distinct;
    GoodIsSized(s);
    if ClearOf(s, n) {
      forall ws: seq<BlockWrite> | Plain(s, ws) && |BlocksOf(ws)| == n
        ensures IsAtomic(s, ws)
      {
        ClearCommand(s, ws);
      }
    } else {
      var ws := Anew(s.j.base, s.d[Spot(s.j.base, 0)], n);
      Reached(s, n);
      AnewLoggable(s, n);
      AnewFacts(s, s.d[Spot(s.j.base, 0)], n);
      FilledIsPlain(SuperSeq(s.d[s.j.base]));
      ReachedIsTorn(s, ws, SuperStart(s.d[s.j.base]), SuperSeq(s.d[s.j.base]));
    }
  }

  lemma ClearCommand(s: Sys, ws: seq<BlockWrite>)
    requires Good(s) && s.j.pend == [] && s.j.start + 2 <= LAST_SLOT && s.j.seqNo + 2 < U32_LIMIT
    requires Plain(s, ws) && |BlocksOf(ws)| <= Capacity(s.j.start) && ClearOf(s, |BlocksOf(ws)|)
    ensures IsAtomic(s, ws)
  {
    hide Good, BacklogOf, InFoot, CommitFrom, IsAtomic, BlocksOf, ClearOf, Capacity;
    InRangeTargets(s, ws);
    FittingIsAtomic(s, ws);
  }

  /** Not clear of the backlog means that the slots reach the one the superblock points at. */
  lemma Reached(s: Sys, n: nat)
    requires Good(s) && Unlapped(s) && !ClearOf(s, n)
    ensures var s0 := SuperStart(s.d[s.j.base]); s.j.start <= s0 <= s.j.start + 1 + n
    ensures R32(s.d[s.j.base], 0) == MAGIC && SuperSeq(s.d[s.j.base]) < s.j.seqNo
  {
    hide Good, BacklogOf, SuperSeq, SuperStart, R32;
    BacklogBegins(s);
  }

  lemma AnewLoggable(s: Sys, n: nat)
    requires Good(s) && s.j.pend == [] && s.j.start + 2 <= LAST_SLOT && s.j.seqNo + 2 < U32_LIMIT
    requires 1 <= n <= Capacity(s.j.start) && JOURNAL_BLOCKS + n <= |s.d|
    ensures WellSized(s) && n <= MAX_PEND
    ensures var ws := Anew(s.j.base, s.d[Spot(s.j.base, 0)], n);
            Loggable(s, ws) && forall k :: 0 <= k < n ==> ws[k].blk < |s.d|
  {
    hide Good, FilledBlock, Differing;
    GoodIsSized(s);
  }
}
