/** Whole runs of the journal: writes, commits and power failures in any order. */
module JournalRun {
  import opened Bytes
  import opened Collections
  import opened Wrappers
  import opened Disk
  import opened JournalFormat
  import opened Journal
  import opened JournalCrash

  // ---- one block write ----

  predicate Fresh(j: Jbd, blk: nat) {
    FindPend(j.pend, blk).None?
  }

  /** The ring position is wrapped in memory although the superblock still has the old one. */
  predicate LosesWrap(j: Jbd, blk: nat) {
    Fresh(j, blk) && j.pend == [] && j.start + 2 > LAST_SLOT
  }

  /** A forced commit of a full transaction leaves no room before the end of the ring. */
  predicate Overruns(j: Jbd, blk: nat) {
    Fresh(j, blk) && j.start == 1 && |j.pend| == MAX_PEND
  }

  /** The slots of the open transaction run into replayed transactions that the superblock
      still points at. */
  ghost predicate HitsBacklog(s: Sys, T: seq<Txn>, blk: nat)
    requires Fits(s.d, s.j.base)
  {
    && Fresh(s.j, blk) && !MustCommit(s.j)
    && exists b: nat :: InOpen(WriteJbd(s.j, blk), b) && InFoot(b, s.j.base, SuperStart(s.d[s.j.base]), T)
  }

  ghost predicate SafeWrite(s: Sys, T: seq<Txn>, blk: nat, buf: Block)
    requires Fits(s.d, s.j.base)
  {
    && blk < |s.d| && blk < U32_LIMIT && !InJournal(s.j.base, blk)
    && !CommitFrom(buf, s.j.seqNo)
    && !LosesWrap(s.j, blk) && !Overruns(s.j, blk) && !HitsBacklog(s, T, blk)
  }

  /** The journal block an unforced write logs to. */
  function LogBlock(j: Jbd, blk: nat): nat {
    match FindPend(j.pend, blk)
    case Some(k) => j.base + j.pend[k].pos
    case None => j.base + LogSlot(j)
  }

  lemma LogBlockFacts(s: Sys, T: seq<Txn>, blk: nat, buf: Block)
    requires Inv(s, T) && SafeWrite(s, T, blk, buf) && !Forces(s.j, blk) && s.j.seqNo + 1 < U32_LIMIT
    ensures WriteWrites(s, blk, buf) == [RawWrite(LogBlock(s.j, blk), buf)]
    ensures InOpen(WriteJbd(s.j, blk), LogBlock(s.j, blk))
    ensures s.j.base + 1 < LogBlock(s.j, blk) < s.j.base + JOURNAL_BLOCKS
    ensures Layout(WriteJbd(s.j, blk)) && WriteJbd(s.j, blk).start == s.j.start && WriteJbd(s.j, blk).seqNo == s.j.seqNo
    ensures OpenIsFree(WriteJbd(s.j, blk), s.d, T)
  {
    hide CommitWrites, Chain, InFoot, Quiet, SuperStart;
    var j := WriteJbd(s.j, blk);
    if Fresh(s.j, blk) {
      forall i, k | 0 <= i < k < |j.pend|
        ensures j.pend[i].blk != j.pend[k].blk
      {
      }
    }
  }

  lemma QuietLogged(s: Sys, c: Disk, at: nat, buf: Block, t: nat)
    requires Fits(s.d, s.j.base) && Quiet(s.d, s.j.base, s.j.seqNo) && t <= SECTORS
    requires s.j.base < at < s.j.base + JOURNAL_BLOCKS && !CommitFrom(buf, s.j.seqNo)
    requires c == s.d[at := Torn(s.d[at], buf, t)]
    ensures Quiet(c, s.j.base, s.j.seqNo)
  {
    TornField(s.d[at], buf, t, 0);
    TornField(s.d[at], buf, t, 4);
    TornField(s.d[at], buf, t, 8);
    assert !CommitFrom(s.d[at], s.j.seqNo);
    QuietStep(c, s.d, s.j.base, s.j.seqNo, s.j.seqNo);
  }

  /** Power fails while a block is logged: the home contents survive. */
  lemma CrashInLog(s: Sys, T: seq<Txn>, blk: nat, buf: Block, k: nat, t: nat)
    requires Inv(s, T) && SafeWrite(s, T, blk, buf) && !Forces(s.j, blk) && s.j.seqNo + 1 < U32_LIMIT
    requires k <= |WriteWrites(s, blk, buf)| && t <= SECTORS
    ensures RecoversTo(Crash(s.d, WriteWrites(s, blk, buf), k, t), s.j.base, Home(s.d, s.j.base))
  {
    hide Chain, CommitFrom, InFoot, Mount, Home, WriteWrites, WriteJbd, LogSlot, FindPend, SuperStart, SuperSeq;
    var at := LogBlock(s.j, blk);
    LogBlockFacts(s, T, blk, buf);
    var ws := WriteWrites(s, blk, buf);
    assert ws[..0] == [] && ws[..1] == ws;
    TornEnds(s.d[at], buf);
    var sectors := if k == 0 then t else SECTORS;
    var c := s.d[at := Torn(s.d[at], buf, sectors)];
    assert Crash(s.d, ws, k, t) == c;
    QuietLogged(s, c, at, buf, sectors);
    RecoverUnsealed(s, T, c, at, at);
  }

  lemma Logged1(s: Sys, T: seq<Txn>, blk: nat, buf: Block)
    requires Inv(s, T) && SafeWrite(s, T, blk, buf) && !Forces(s.j, blk) && s.j.seqNo + 1 < U32_LIMIT
    ensures Apply(s.d, WriteWrites(s, blk, buf)) == s.d[LogBlock(s.j, blk) := buf]
  {
    hide Backlog, OpenIsFree, Quiet, HitsBacklog, WriteWrites;
    LogBlockFacts(s, T, blk, buf);
    var ws := WriteWrites(s, blk, buf);
    assert ws[..0] == [];
  }

  /** A logged write changes what reads of that block return and no home block. */
  lemma LogStep(s: Sys, T: seq<Txn>, blk: nat, buf: Block)
    requires Inv(s, T) && SafeWrite(s, T, blk, buf) && !Forces(s.j, blk) && s.j.seqNo + 1 < U32_LIMIT
    ensures var s' := Sys(WriteJbd(s.j, blk), Apply(s.d, WriteWrites(s, blk, buf)));
      && Inv(s', T)
      && Home(s'.d, s.j.base) == Home(s.d, s.j.base)
      && View(s') == View(s)[blk := buf]
  {
    hide Chain, CommitFrom, InFoot, WriteWrites, SuperStart, SuperSeq;
    var at, base := LogBlock(s.j, blk), s.j.base;
    var s' := Sys(WriteJbd(s.j, blk), Apply(s.d, WriteWrites(s, blk, buf)));
    LogBlockFacts(s, T, blk, buf);
    Logged1(s, T, blk, buf);
    TornEnds(s.d[at], buf);
    QuietLogged(s, s'.d, at, buf, SECTORS);
    assert AgreeOnFoot(s'.d, s.d, base, SuperStart(s.d[base]), T);
    ChainFrame(s'.d, s.d, base, SuperStart(s.d[base]), SuperSeq(s.d[base]), T, s.j.start, s.j.seqNo);
    BacklogStaysApplied(s, T, s'.d, at);
    LogView(s, blk, buf, s');
  }

  lemma BacklogStaysApplied(s: Sys, T: seq<Txn>, d: Disk, at: nat)
    requires Inv(s, T) && InJournal(s.j.base, at) && |d| == |s.d|
    requires forall blk: nat :: blk < |d| && blk != at ==> d[blk] == s.d[blk]
    ensures InRange(d, AllWrites(T)) && Apply(d, AllWrites(T)) == d
  {
    hide CommitFrom, InFoot, SuperStart, SuperSeq, AllWrites, Apply;
    ChainClean(s.d, s.j.base, SuperStart(s.d[s.j.base]), SuperSeq(s.d[s.j.base]), T, s.j.start, s.j.seqNo);
    forall blk: nat | blk < |d|
      ensures Apply(d, AllWrites(T))[blk] == d[blk]
    {
      if blk == at {
        ApplyFrame(d, AllWrites(T), blk);
      } else {
        ApplyDetermined(d, s.d, AllWrites(T), blk);
      }
    }
  }

  lemma LogView(s: Sys, blk: nat, buf: Block, s': Sys)
    requires WellSized(s) && WellSized(s') && Layout(s.j) && Layout(s'.j) && blk < |s.d| && !InJournal(s.j.base, blk)
    requires s'.j == WriteJbd(s.j, blk) && s'.d == s.d[LogBlock(s.j, blk) := buf]
      && InJournal(s.j.base, LogBlock(s.j, blk))
    requires !Forces(s.j, blk) && s'.j.start == s.j.start
    ensures View(s') == View(s)[blk := buf]
  {
    assert s'.j.base == s.j.base;
    hide Read, WriteJbd, LogBlock, FindPend, Layout;
    forall b: nat | b < |s.d| && !InJournal(s.j.base, b)
      ensures Read(s', b) == if b == blk then buf else Read(s, b)
    {
      LogReadAt(s, blk, buf, s', b);
    }
  }

  lemma LogReadAt(s: Sys, blk: nat, buf: Block, s': Sys, b: nat)
    requires WellSized(s) && WellSized(s') && Layout(s.j) && Layout(s'.j) && blk < |s.d| && !InJournal(s.j.base, blk)
    requires s'.j == WriteJbd(s.j, blk) && s'.d == s.d[LogBlock(s.j, blk) := buf]
      && InJournal(s.j.base, LogBlock(s.j, blk))
    requires !Forces(s.j, blk) && s'.j.start == s.j.start && b < |s.d| && !InJournal(s.j.base, b)
    ensures Read(s', b) == if b == blk then buf else Read(s, b)
  {
    FindAfterWrite(s.j, blk, b);
  }

  lemma FindAfterWrite(j: Jbd, blk: nat, b: nat)
    requires Layout(j) && !InJournal(j.base, blk) && !Forces(j, blk)
    ensures b != blk ==> FindPend(WriteJbd(j, blk).pend, b) == FindPend(j.pend, b)
    ensures b == blk && Fresh(j, blk) ==> FindPend(WriteJbd(j, blk).pend, b) == Some(|j.pend|)
  {
    if Fresh(j, blk) {
      FindAppended(j.pend, Pend(blk, LogSlot(j)), b);
    }
  }

  lemma {:induction false} FindAppended(pend: seq<Pend>, e: Pend, b: nat)
    ensures FindPend(pend + [e], b) ==
            if FindPend(pend, b).Some? then FindPend(pend, b) else if e.blk == b then Some(|pend|) else None
    decreases |pend|
  {
    if pend != [] {
      FindAppended(pend[1..], e, b);
      assert (pend + [e])[1..] == pend[1..] + [e];
    }
  }

  // ---- operations ----

  datatype Op = Write(blk: nat, buf: Block) | Commit

  /** The operation makes everything pending durable, be it asked to or forced to. */
  predicate Commits(j: Jbd, op: Op) {
    j.pend != [] && (op.Commit? || Forces(j, op.blk))
  }

  /** The commit counter has room: the kernel panics when it overflows. */
  ghost predicate SafeOp(s: Sys, T: seq<Txn>, op: Op)
    requires Fits(s.d, s.j.base)
  {
    s.j.seqNo + 2 < U32_LIMIT && (op.Write? ==> SafeWrite(s, T, op.blk, op.buf))
  }

  function OpWrites(s: Sys, op: Op): (ws: seq<RawWrite>)
    requires WellSized(s) && s.j.seqNo + 1 < U32_LIMIT && (op.Write? ==> op.blk < |s.d|)
    ensures InRange(s.d, ws)
  {
    match op
    case Write(blk, buf) => WriteWrites(s, blk, buf)
    case Commit => CommitWrites(s.j, s.d)
  }

  function Exec(s: Sys, op: Op): (r: Sys)
    requires WellSized(s) && s.j.seqNo + 1 < U32_LIMIT && (op.Write? ==> op.blk < |s.d|)
    ensures |r.d| == |s.d| && r.j.base == s.j.base
  {
    Sys(if op.Write? then WriteJbd(s.j, op.blk) else CommitJbd(s.j), Apply(s.d, OpWrites(s, op)))
  }

  lemma CommitApplied(s: Sys)
    requires WellSized(s) && Layout(s.j) && s.j.pend != [] && s.j.seqNo + 1 < U32_LIMIT
    ensures Apply(s.d, CommitWrites(s.j, s.d)) == CommittedDisk(s)
  {
    hide EncodeDesc, EncodeCommit, EncodeSuper, Checksum, CommitWrites, SealWrites, Apply, SealedDisk, Layout;
    var seals, t, w := SealWrites(s.j, s.d), OpenTxn(s), SuperWrite(s.j, s.d);
    CommitShape(s);
    SealApplied(s);
    OpenTxnClean(s);
    ApplyConcat(s.d, seals, t);
    ApplyConcat(s.d, seals + t, [w]);
    ApplyOne(HomesDone(s), w);
  }

  /** A forced write is a commit followed by an unforced write from slot 1 of the ring. */
  lemma ForcedWrite(s: Sys, T: seq<Txn>, blk: nat, buf: Block)
    requires Inv(s, T) && SafeWrite(s, T, blk, buf) && Forces(s.j, blk) && s.j.seqNo + 2 < U32_LIMIT
    ensures var s1 := Sys(CommitJbd(s.j), CommittedDisk(s));
      && s1.j.start == 1 && s1.j.pend == []
      && Inv(s1, []) && SafeWrite(s1, [], blk, buf) && !Forces(s1.j, blk)
      && WriteWrites(s, blk, buf) == CommitWrites(s.j, s.d) + WriteWrites(s1, blk, buf)
      && WriteJbd(s.j, blk) == WriteJbd(s1.j, blk)
  {
    hide CommitWrites, Chain, Apply, CommittedDisk, Backlog, OpenIsFree, Quiet, View, Home, FindPend, HitsBacklog;
    var s1 := Sys(CommitJbd(s.j), CommittedDisk(s));
    CommitDone(s, T);
    EmptyFind(blk);
    NoFootNoHit(s1, blk);
    LaterIsQuieter(buf, s.j.seqNo);
  }

  lemma EmptyFind(blk: nat)
    ensures FindPend([], blk) == None
  {
  }

  lemma NoFootNoHit(s: Sys, blk: nat)
    requires Fits(s.d, s.j.base)
    ensures !HitsBacklog(s, [], blk)
  {
  }

  lemma LaterIsQuieter(b: Block, q: nat)
    requires !CommitFrom(b, q)
    ensures !CommitFrom(b, q + 1)
  {
  }

  /** The backlog after an operation. */
  function NextBacklog(s: Sys, T: seq<Txn>, op: Op): seq<Txn> {
    if Commits(s.j, op) then [] else T
  }

  /** Every operation keeps the invariant; reads see the write; the home blocks change exactly
      when the operation commits, and then to what reads returned before it. */
  lemma StepKeeps(s: Sys, T: seq<Txn>, op: Op)
    requires Inv(s, T) && SafeOp(s, T, op)
    ensures Inv(Exec(s, op), NextBacklog(s, T, op))
    ensures Home(Exec(s, op).d, s.j.base) == if Commits(s.j, op) then View(s) else Home(s.d, s.j.base)
    ensures View(Exec(s, op)) == if op.Write? then View(s)[op.blk := op.buf] else View(s)
  {
    hide CommitWrites, WriteWrites, WriteJbd, Apply, CommittedDisk, Backlog, OpenIsFree, Quiet, View, Home,
         HitsBacklog, FindPend;
    match op {
      case Commit =>
        if s.j.pend == [] {
          NothingToCommit(s);
          ApplyNothing(s.d);
        } else {
          CommitApplied(s);
          CommitDone(s, T);
          SettledView(Exec(s, op));
        }
      case Write(blk, buf) =>
        if Forces(s.j, blk) {
          var s1 := Sys(CommitJbd(s.j), CommittedDisk(s));
          ForcedWrite(s, T, blk, buf);
          CommitDone(s, T);
          CommitApplied(s);
          ApplyConcat(s.d, CommitWrites(s.j, s.d), WriteWrites(s1, blk, buf));
          SettledView(s1);
          LogStep(s1, [], blk, buf);
        } else {
          LogStep(s, T, blk, buf);
        }
    }
  }

  /** With nothing pending, reads return the home blocks. */
  lemma SettledView(s: Sys)
    requires WellSized(s) && s.j.pend == []
    ensures View(s) == Home(s.d, s.j.base)
  {
  }

  /** Power fails anywhere inside an operation: recovery finds the home contents from before the
      operation or, only if the operation commits, everything that was pending. */
  lemma StepCrash(s: Sys, T: seq<Txn>, op: Op, k: nat, t: nat)
    requires Inv(s, T) && SafeOp(s, T, op) && k <= |OpWrites(s, op)| && t <= SECTORS
    ensures var c := Crash(s.d, OpWrites(s, op), k, t);
      || RecoversTo(c, s.j.base, Home(s.d, s.j.base))
      || (Commits(s.j, op) && RecoversTo(c, s.j.base, View(s)))
  {
    hide CommitWrites, WriteWrites, WriteJbd, Apply, Crash, CommittedDisk, Backlog, OpenIsFree, Quiet, View, Home,
         HitsBacklog, FindPend, RecoversTo;
    match op {
      case Commit =>
        CrashInCommit(s, T, k, t);
      case Write(blk, buf) =>
        if Forces(s.j, blk) {
          var s1 := Sys(CommitJbd(s.j), CommittedDisk(s));
          var cw := CommitWrites(s.j, s.d);
          ForcedWrite(s, T, blk, buf);
          CommitDone(s, T);
          CommitApplied(s);
          CrashConcat(s.d, cw, WriteWrites(s1, blk, buf), k, t);
          if k < |cw| {
            CrashInCommit(s, T, k, t);
          } else {
            CrashInLog(s1, [], blk, buf, k - |cw|, t);
          }
        } else {
          CrashInLog(s, T, blk, buf, k, t);
        }
    }
  }

  // ---- power failures during recovery ----

  /** Power fails while recovery replays: the next mount replays the same transactions and ends
      in the same system. */
  lemma MountRestarts(c: Disk, base: nat, T: seq<Txn>, s1: nat, q1: nat, k: nat, t: nat)
    requires Fits(c, base) && Recovers(c, base, T, s1, q1)
    requires k <= |Mount(c, base).writes| && t <= SECTORS
    ensures var e := Crash(c, Mount(c, base).writes, k, t);
      Recovers(e, base, T, s1, q1) && Mounted(e, base) == Mounted(c, base)
  {
    hide TxnAt, Mount, Clean, SuperStart, SuperSeq, Apply;
    MountRecovers(c, base, T, s1, q1);
    var W := AllWrites(T);
    var e := Crash(c, W, k, t);
    CleanCrashKeepsJournal(c, base, W, k, t);
    ChainFrame(e, c, base, SuperStart(c[base]), SuperSeq(c[base]), T, s1, q1);
    SameRing(e, c, base);
    SameRingSameTxn(e, c, base, s1, q1);
    MountRecovers(e, base, T, s1, q1);
    forall blk: nat | blk < |c|
      ensures Apply(e, W)[blk] == Apply(c, W)[blk]
    {
      if forall i :: 0 <= i < |W| ==> W[i].blk != blk {
        CrashFrame(c, W, k, t, blk);
      }
      ApplyDetermined(e, c, W, blk);
    }
    assert Apply(e, W) == Apply(c, W);
  }

  lemma CleanCrashKeepsJournal(c: Disk, base: nat, ws: seq<RawWrite>, k: nat, t: nat)
    requires Fits(c, base) && InRange(c, ws) && Clean(c, base, ws) && k <= |ws| && t <= SECTORS
    ensures forall blk: nat :: InJournal(base, blk) ==> Crash(c, ws, k, t)[blk] == c[blk]
  {
    forall blk: nat | InJournal(base, blk)
      ensures Crash(c, ws, k, t)[blk] == c[blk]
    {
      CrashFrame(c, ws, k, t, blk);
    }
  }

  /** Power failures, cut short to what there is to write, in consecutive mounts. */
  function FailedMounts(c: Disk, base: nat, again: seq<(nat, nat)>): (d: Disk)
    requires Fits(c, base)
    ensures |d| == |c|
    decreases |again|
  {
    if again == [] then c
    else
      var ws := Mount(c, base).writes;
      FailedMounts(Crash(c, ws, Least(again[0].0, |ws|), Least(again[0].1, SECTORS)), base, again[1..])
  }

  /** However often recovery is interrupted, the mount that succeeds ends in the same system. */
  lemma {:induction false} RecoveryIsRestartable(c: Disk, base: nat, again: seq<(nat, nat)>, h: Disk)
    requires RecoversTo(c, base, h)
    ensures RecoversTo(FailedMounts(c, base, again), base, h)
    ensures Mounted(FailedMounts(c, base, again), base) == Mounted(c, base)
    decreases |again|
  {
    hide Recovers, Inv, Mount, Home, Crash;
    if again != [] {
      var ws := Mount(c, base).writes;
      var k, t := Least(again[0].0, |ws|), Least(again[0].1, SECTORS);
      var T: seq<Txn>, s1: nat, q1: nat :| Recovers(c, base, T, s1, q1) && Inv(Mounted(c, base), T);
      MountRestarts(c, base, T, s1, q1, k, t);
      RecoveryIsRestartable(Crash(c, ws, k, t), base, again[1..], h);
    }
  }

  // ---- the backlog is a function of the disk ----

  function ScanBacklog(d: Disk, base: nat, start: nat, seqNo: nat, n: nat): seq<Txn>
    requires Fits(d, base)
    decreases n
  {
    if n == 0 then []
    else
      match TxnAt(d, base, start, seqNo)
      case None => []
      case Some(t) => [t] + ScanBacklog(d, base, Advance(start, |t|), seqNo + 1, n - 1)
  }

  lemma {:induction false} ScanIsChain(d: Disk, base: nat, s0: nat, q0: nat, T: seq<Txn>, s1: nat, q1: nat)
    requires Fits(d, base) && Chain(d, base, s0, q0, T, s1, q1)
    ensures q1 == q0 + |T| && ScanBacklog(d, base, s0, q0, q1 - q0) == T
    decreases |T|
  {
    hide TxnAt;
    if T != [] {
      ScanIsChain(d, base, Advance(s0, |T[0]|), q0 + 1, T[1..], s1, q1);
    }
  }

  /** The replayed transactions the journal superblock still points at. */
  function BacklogOf(s: Sys): seq<Txn>
    requires Fits(s.d, s.j.base)
  {
    var q0 := SuperSeq(s.d[s.j.base]);
    if q0 <= s.j.seqNo then ScanBacklog(s.d, s.j.base, SuperStart(s.d[s.j.base]), q0, s.j.seqNo - q0) else []
  }

  ghost predicate Good(s: Sys) {
    Fits(s.d, s.j.base) && Inv(s, BacklogOf(s))
  }

  lemma InvIsGood(s: Sys, T: seq<Txn>)
    requires Inv(s, T)
    ensures Good(s) && BacklogOf(s) == T
  {
    hide TxnAt, Chain, Quiet, OpenIsFree, SuperSeq, SuperStart, ScanBacklog;
    var sb := s.d[s.j.base];
    ScanIsChain(s.d, s.j.base, SuperStart(sb), SuperSeq(sb), T, s.j.start, s.j.seqNo);
  }

  // ---- a lifetime of operations and power failures ----

  datatype Event =
    | Run(op: Op)
    | PowerLoss(op: Op, k: nat, t: nat, again: seq<(nat, nat)>)

  ghost predicate SafeEvent(s: Sys, e: Event)
    requires Fits(s.d, s.j.base)
  {
    SafeOp(s, BacklogOf(s), e.op)
  }

  /** Run the operation to its end; or lose power inside it, lose it again in some mounts, and
      mount successfully. */
  ghost function Next(s: Sys, e: Event): Sys
    requires Good(s) && SafeEvent(s, e)
  {
    match e
    case Run(op) => Exec(s, op)
    case PowerLoss(op, k, t, again) =>
      var ws := OpWrites(s, op);
      Mounted(FailedMounts(Crash(s.d, ws, Least(k, |ws|), Least(t, SECTORS)), s.j.base, again), s.j.base)
  }

  /** The specification: a durable map of home blocks and the map that reads see. */
  datatype Abs = Abs(durable: Disk, current: Disk)

  function AbsOf(s: Sys): Abs
    requires WellSized(s)
  {
    Abs(Home(s.d, s.j.base), View(s))
  }

  /** What one event may do to the specification. `all` tells whether everything pending became
      durable; only a commit, asked for or forced, can make it so. */
  ghost predicate AbsNext(a: Abs, e: Event, commits: bool, b: Abs) {
    match e
    case Run(Write(blk, buf)) =>
      blk < |a.current| && b == Abs(if commits then a.current else a.durable, a.current[blk := buf])
    case Run(Commit) => b == Abs(a.current, a.current)
    case PowerLoss(_, _, _, _) =>
      b == Abs(a.durable, a.durable) || (commits && b == Abs(a.current, a.current))
  }

  /** One event of a good system is one step of the specification and leaves a good system. */
  lemma EventRefines(s: Sys, e: Event)
    requires Good(s) && SafeEvent(s, e)
    ensures Good(Next(s, e)) && Next(s, e).j.base == s.j.base
    ensures AbsNext(AbsOf(s), e, Commits(s.j, e.op), AbsOf(Next(s, e)))
  {
    if e.Run? {
      WholeRefines(s, e.op);
    } else {
      LossRefines(s, e.op, e.k, e.t, e.again);
    }
  }

  lemma WholeRefines(s: Sys, op: Op)
    requires Good(s) && SafeEvent(s, Run(op))
    ensures Good(Exec(s, op)) && AbsNext(AbsOf(s), Run(op), Commits(s.j, op), AbsOf(Exec(s, op)))
  {
    assert op.Write? ==> op.blk < |s.d|;
    hide Backlog, OpenIsFree, Quiet, View, Home, SafeWrite, Exec, BacklogOf;
    StepKeeps(s, BacklogOf(s), op);
    InvIsGood(Exec(s, op), NextBacklog(s, BacklogOf(s), op));
    if op.Commit? && s.j.pend == [] {
      SettledView(s);
    }
  }

  lemma LossRefines(s: Sys, op: Op, k: nat, t: nat, again: seq<(nat, nat)>)
    requires var e := PowerLoss(op, k, t, again); Good(s) && SafeEvent(s, e)
    ensures var e := PowerLoss(op, k, t, again);
      Good(Next(s, e)) && Next(s, e).j.base == s.j.base
      && AbsNext(AbsOf(s), e, Commits(s.j, op), AbsOf(Next(s, e)))
  {
    assert op.Write? ==> op.blk < |s.d|;
    hide Backlog, OpenIsFree, Quiet, View, Home, SafeWrite, OpWrites, RecoversTo, Crash, BacklogOf, Mount,
         FailedMounts;
    var ws := OpWrites(s, op);
    var k', t' := Least(k, |ws|), Least(t, SECTORS);
    var c := Crash(s.d, ws, k', t');
    StepCrash(s, BacklogOf(s), op, k', t');
    var h := if RecoversTo(c, s.j.base, Home(s.d, s.j.base)) then Home(s.d, s.j.base) else View(s);
    RecoveryIsRestartable(c, s.j.base, again, h);
    RecoveredIsGood(FailedMounts(c, s.j.base, again), s.j.base, h);
  }

  lemma RecoveredIsGood(c: Disk, base: nat, h: Disk)
    requires RecoversTo(c, base, h)
    ensures Good(Mounted(c, base)) && AbsOf(Mounted(c, base)) == Abs(h, h)
  {
    hide Recovers, Mount, Home, View, Backlog, OpenIsFree, Quiet, BacklogOf;
    var T: seq<Txn>, s1: nat, q1: nat :| Recovers(c, base, T, s1, q1) && Inv(Mounted(c, base), T);
    InvIsGood(Mounted(c, base), T);
    SettledView(Mounted(c, base));
  }

  ghost predicate SafeEvents(s: Sys, es: seq<Event>)
    requires Good(s)
    decreases |es|
  {
    if es == [] then true
    else SafeEvent(s, es[0]) && Good(Next(s, es[0])) && SafeEvents(Next(s, es[0]), es[1..])
  }

  ghost function RunAll(s: Sys, es: seq<Event>): Sys
    requires Good(s) && SafeEvents(s, es)
    decreases |es|
  {
    if es == [] then s else RunAll(Next(s, es[0]), es[1..])
  }

  /** Some choice of what each commit and power failure made durable explains the run. */
  ghost predicate AbsRun(a: Abs, es: seq<Event>, b: Abs)
    decreases |es|
  {
    if es == [] then a == b
    else exists m: Abs, commits: bool :: AbsNext(a, es[0], commits, m) && AbsRun(m, es[1..], b)
  }

  /** Every lifetime of operations and power failures, interrupted recoveries included, is a run
      of the specification: reads return the last value written, a commit makes everything
      durable, and a power failure loses all of what was not durable or none of it. */
  lemma {:induction false} LifetimeRefines(s: Sys, es: seq<Event>)
    requires Good(s) && SafeEvents(s, es)
    ensures Good(RunAll(s, es))
    ensures AbsRun(AbsOf(s), es, AbsOf(RunAll(s, es)))
    decreases |es|
  {
    hide Inv, Next, SafeEvent, AbsOf, AbsNext;
    if es != [] {
      var s1 := Next(s, es[0]);
      GoodIsSized(s);
      GoodIsSized(s1);
      EventRefines(s, es[0]);
      LifetimeRefines(s1, es[1..]);
      GoodIsSized(RunAll(s1, es[1..]));
      assert AbsNext(AbsOf(s), es[0], Commits(s.j, es[0].op), AbsOf(s1));
    } else {
      GoodIsSized(s);
    }
  }

  lemma GoodIsSized(s: Sys)
    requires Good(s)
    ensures WellSized(s)
  {
  }

  /** Mounting a journal whose ring holds no commit block numbered like the superblock or later
      changes no home block and gives a good system. */
  lemma QuietMount(d: Disk, base: nat)
    requires Fits(d, base) && R32(d[base], 0) == MAGIC && Quiet(d, base, SuperSeq(d[base]))
    ensures Good(Mounted(d, base)) && AbsOf(Mounted(d, base)) == Abs(Home(d, base), Home(d, base))
  {
    hide CommitFrom, Mount, Home, View, SuperSeq, BacklogOf, Quiet;
    var s0, q0 := SuperStart(d[base]), SuperSeq(d[base]);
    QuietMeansNoTxn(d, base, s0, q0);
    assert Recovers(d, base, [], s0, q0);
    assert q0 < U32_LIMIT by {
      SeqIsU32(d[base]);
    }
    RecoveredInv(d, base, [], s0, q0);
    MountRecovers(d, base, [], s0, q0);
    ApplyNothing(d);
    assert RecoversTo(d, base, Home(d, base));
    RecoveredIsGood(d, base, Home(d, base));
  }

  lemma SeqIsU32(b: Block)
    ensures SuperSeq(b) < U32_LIMIT
  {
  }
}
