/** Payloads that look like commit blocks. Recovery knows a commit block by its header alone, so one in the
    data of a command can seal a descriptor left over in the ring. */
module PayloadGuard {
  import opened Bytes
  import opened Collections
  import opened Wrappers
  import Crc
  import opened Disk
  import opened JournalFormat
  import opened Journal
  import opened JournalCrash
  import opened JournalRun
  import opened JournalExact
  import opened JournalGuards
  import opened BacklogGuard
  import opened BacklogExact

  const FAR: nat := 1026

  /** The header of a commit block, whatever its number. */
  predicate CommitHeader(b: Block) { R32(b, 0) == MAGIC && R32(b, 4) == COMMIT }

  // ---- a disk with the descriptor of a transaction that was never sealed ----

  function OldDesc(q: nat): Block
    requires q < U32_LIMIT
  {
    EncodeDesc(q, [0])
  }

  function OldSuper(q: nat): Block
    requires q < U32_LIMIT
  {
    EncodeSuper(DemoSuper(1), q, 1)
  }

  function OldDisk(q: nat): (d: Disk)
    requires q < U32_LIMIT
    ensures |d| == DEMO_SIZE
    ensures forall i :: 0 <= i < DEMO_SIZE ==>
              d[i] == if i == DEMO_BASE then OldSuper(q) else if i == DEMO_BASE + 1 then OldDesc(q) else ZERO_BLOCK
  {
    DemoDisk(1)[DEMO_BASE := OldSuper(q)][DEMO_BASE + 1 := OldDesc(q)]
  }

  lemma OldSuperReads(q: nat)
    requires q < U32_LIMIT
    ensures R32(OldSuper(q), 0) == MAGIC && SuperSeq(OldSuper(q)) == q && SuperStart(OldSuper(q)) == 1
  {
    hide EncodeSuper, DemoSuper, R32, SuperSeq, SuperStart;
    DemoSuperFields(1);
    SuperRoundTrip(DemoSuper(1), q, 1);
  }

  lemma OldDescReads(q: nat)
    requires q < U32_LIMIT
    ensures IsDesc(OldDesc(q), q) && R32(OldDesc(q), 12) == 1 && R32(OldDesc(q), 16) == 0
    ensures !CommitFrom(OldDesc(q), q)
  {
    hide EncodeDesc;
    var blks: seq<nat> := [0];
    DescRoundTrip(q, blks);
    assert R32(EncodeDesc(q, blks), 16 + 4 * 0) == blks[0];
  }

  lemma OldQuiet(q: nat)
    requires q < U32_LIMIT
    ensures Fits(OldDisk(q), DEMO_BASE) && Quiet(OldDisk(q), DEMO_BASE, q)
  {
    hide OldDesc, OldSuper, OldDisk, R32;
    ZeroField(0);
    OldDescReads(q);
  }

  lemma OldGood(q: nat) returns (s: Sys)
    requires q < U32_LIMIT
    ensures s == Sys(Jbd(DEMO_BASE, 1, q, []), OldDisk(q)) && Good(s) && BacklogOf(s) == []
  {
    hide BacklogOf, OldDesc, OldSuper, OldDisk, Quiet, SuperSeq, SuperStart, Inv, Good, TxnAt, Mounted, R32;
    var d := OldDisk(q);
    s := Mounted(d, DEMO_BASE);
    OldSuperReads(q);
    OldQuiet(q);
    QuietMeansNoTxn(d, DEMO_BASE, 1, q);
    assert Recovers(d, DEMO_BASE, [], 1, q);
    MountRecovers(d, DEMO_BASE, [], 1, q);
    RecoveredInv(d, DEMO_BASE, [], 1, q);
    ApplyNothing(d);
    InvIsGood(s, []);
  }

  // ---- the command that gets it sealed ----

  /** Any checksum can be had: some block after this descriptor gives it. */
  lemma MatchingBlock(q: nat, x: nat) returns (p: Block)
    requires q < U32_LIMIT && x < U32_LIMIT
    ensures Checksum(OldDesc(q), [p]) == x && p[0] == 1 && !CommitFrom(p, q)
  {
    hide OldDesc, Crc.Crc32c, Crc.BitsOf;
    var head := Filled(4092);
    var c0 := Crc.Crc32c(Crc.ONES, OldDesc(q));
    var to := Crc.BitsOf(x, 32);
    var tail := Crc.FourBytesReach(Crc.Crc32c(c0, head), to);
    p := head + tail;
    Crc.Chains(c0, head, tail);
    OneBlockSum(c0, p);
    Crc.Pow2Values();
    assert p[0] == p[1] == p[2] == p[3] == 1;
  }

  lemma OneBlockSum(c: Crc.Word, p: Block)
    ensures ChecksumFrom(c, [p]) == Crc.Crc32c(c, p)
  {
    hide Crc.Crc32c;
    assert [p][..0] == [];
  }

  /** First a block that fits the old descriptor, then the forged commit block. */
  function Pair(p: Block, b: Block): (ws: seq<BlockWrite>)
    ensures |ws| == 2 && ws[0] == BlockWrite(0, p) && ws[1] == BlockWrite(FAR, b)
  {
    [BlockWrite(0, p), BlockWrite(FAR, b)]
  }

  lemma PairFits(s: Sys, p: Block, b: Block)
    requires WellSized(s) && s.j == Jbd(DEMO_BASE, 1, s.j.seqNo, []) && |s.d| == DEMO_SIZE
      && s.j.seqNo + 1 < U32_LIMIT
    ensures Loggable(s, Pair(p, b)) && |BlocksOf(Pair(p, b))| == 2
      && forall n :: 0 <= n < 2 ==> Pair(p, b)[n].blk < |s.d|
  {
    hide Pair;
    var ws := Pair(p, b);
    var t := TargetsOf(ws);
    assert Distinct(t);
    DistinctSize(t);
    TargetBlocks(ws);
  }

  /** Both blocks logged, nothing sealed: the payload sits where the commit block of the old descriptor would. */
  ghost predicate ForgedDisk(c: Disk, q: nat, p: Block, b: Block)
    requires q < U32_LIMIT
  {
    && |c| == DEMO_SIZE && c[DEMO_BASE] == OldSuper(q) && c[2] == OldDesc(q) && c[3] == p && c[4] == b
    && c[5] == c[0] == c[FAR] == ZERO_BLOCK
  }

  lemma BothLogged(s: Sys, p: Block, b: Block)
    requires s.j == Jbd(DEMO_BASE, 1, s.j.seqNo, []) && s.j.seqNo + 1 < U32_LIMIT && s.d == OldDisk(s.j.seqNo)
    ensures WellSized(s) && forall n :: 0 <= n < 2 ==> Pair(p, b)[n].blk < |s.d|
    ensures WellSized(ExecWrites(s, Pair(p, b))) && ExecWrites(s, Pair(p, b)).j.seqNo == s.j.seqNo
    ensures ForgedDisk(ExecWrites(s, Pair(p, b)).d, s.j.seqNo, p, b)
  {
    hide OldDesc, OldSuper, OldDisk, ExecWrites, Pair, BlocksOf, LoggedTo, Loggable;
    var ws := Pair(p, b);
    PairFits(s, p, b);
    assert ws[..2] == ws;
    LogsAll(s, ws, 2);
    LoggedShape(s, ExecWrites(s, ws), ws);
    LoggedRest(s, ExecWrites(s, ws), ws);
    LoggedBlocks(s, ExecWrites(s, ws), p, b);
  }

  lemma LoggedBlocks(s: Sys, m: Sys, p: Block, b: Block)
    requires s.j == Jbd(DEMO_BASE, 1, s.j.seqNo, []) && s.j.seqNo < U32_LIMIT && s.d == OldDisk(s.j.seqNo)
    requires LoggedTo(s, m, Pair(p, b), 2)
    ensures ForgedDisk(m.d, s.j.seqNo, p, b)
  {
    hide OldDesc, OldSuper, OldDisk, Pair, Pends;
  }

  lemma ForgedTxn(c: Disk, q: nat, p: Block, b: Block)
    requires q < U32_LIMIT && ForgedDisk(c, q, p, b) && IsCommit(b, q) && R32(b, 12) == Checksum(OldDesc(q), [p])
    ensures Fits(c, DEMO_BASE) && TxnAt(c, DEMO_BASE, 1, q) == Some([RawWrite(0, p)])
  {
    hide OldDesc, OldSuper, Checksum, IsDesc, IsCommit, R32;
    OldDescReads(q);
    assert c[3..4] == [p];
    assert TxnWrites(c, DEMO_BASE, 1, 1) == [RawWrite(0, p)];
  }

  lemma NoSecond(c: Disk, q: nat)
    requires |c| == DEMO_SIZE && c[5] == ZERO_BLOCK
    ensures TxnAt(c, DEMO_BASE, 4, q) == None
  {
    ZeroField(0);
    hide R32, Checksum, TxnWrites;
  }

  /** Recovery takes the payload for the seal of the old descriptor, and copies out the first block only. */
  lemma ForgedFound(c: Disk, q: nat, p: Block, b: Block)
    requires q < U32_LIMIT && ForgedDisk(c, q, p, b) && IsCommit(b, q) && R32(b, 12) == Checksum(OldDesc(q), [p])
    ensures Fits(c, DEMO_BASE) && Mounted(c, DEMO_BASE).d == c[0 := p]
  {
    hide OldDesc, OldSuper, TxnAt, IsCommit, Checksum, R32, SuperSeq, SuperStart, Mounted;
    var t: Txn := [RawWrite(0, p)];
    ForgedTxn(c, q, p, b);
    NoSecond(c, q + 1);
    OldSuperReads(q);
    assert AllWrites([t]) == t + AllWrites([t][1..]) == t;
    assert [t][1..] == [] && Advance(1, |t|) == 4;
    assert Chain(c, DEMO_BASE, 4, q + 1, [t][1..], 4, q + 1);
    assert Chain(c, DEMO_BASE, 1, q, [t], 4, q + 1);
    MountRecovers(c, DEMO_BASE, [t], 4, q + 1);
    ApplyOne(c, t[0]);
  }

  lemma PairWritten(h: Disk, p: Block, b: Block)
    requires |h| == DEMO_SIZE
    ensures Overwrite(h, Pair(p, b))[FAR] == b
  {
    var ws := Pair(p, b);
    assert ws[..1] == [ws[0]] && |Overwrite(h, ws[..1])| == |h|;
  }

  lemma ForgedIsNeither(s: Sys, c: Disk, q: nat, p: Block, b: Block)
    requires s.j.base == DEMO_BASE && q < U32_LIMIT && s.d == OldDisk(q) && ForgedDisk(c, q, p, b)
    requires Fits(c, DEMO_BASE) && Mounted(c, DEMO_BASE).d == c[0 := p] && p[0] == 1 && b != ZERO_BLOCK
    ensures !OldOrWhole(c, s, Pair(p, b))
  {
    hide Mounted, RecoversTo, Overwrite, OldDisk, OldSuper, OldDesc, Pair;
    var h, e := Home(s.d, DEMO_BASE), Home(c[0 := p], DEMO_BASE);
    PairWritten(h, p, b);
    assert e[0] == p && e[FAR] == ZERO_BLOCK && h[0] == ZERO_BLOCK && ZERO_BLOCK[0] == 0;
    if RecoversTo(c, DEMO_BASE, h) {
      RecoveredHome(c, DEMO_BASE, h);
    }
    if RecoversTo(c, DEMO_BASE, Overwrite(h, Pair(p, b))) {
      RecoveredHome(c, DEMO_BASE, Overwrite(h, Pair(p, b)));
    }
  }

  lemma NothingYet(d: Disk, ws: seq<RawWrite>)
    requires InRange(d, ws)
    ensures Crash(d, ws, 0, 0) == d
  {
    assert ws[..0] == [];
    ApplyNothing(d);
    if ws != [] {
      TornEnds(d[ws[0].blk], ws[0].data);
    }
  }

  // ---- the guard is exact ----

  /** A command that fits one transaction clear of the backlog, each payload of which is `b` or plain. */
  ghost predicate Carries(s: Sys, ws: seq<BlockWrite>, b: Block) {
    && Good(s) && s.j.pend == [] && s.j.start + 2 <= LAST_SLOT && s.j.seqNo + 2 < U32_LIMIT
    && InPlace(|s.d|, s.j.base, TargetsOf(ws)) && |BlocksOf(ws)| <= Capacity(s.j.start) && ClearOf(s, |BlocksOf(ws)|)
    && forall i :: 0 <= i < |ws| ==> ws[i].buf == b || !CommitFrom(ws[i].buf, s.j.seqNo)
  }

  lemma PairCarried(s: Sys, p: Block, b: Block)
    requires Good(s) && BacklogOf(s) == [] && s.j == Jbd(DEMO_BASE, 1, s.j.seqNo, []) && |s.d| == DEMO_SIZE
    requires s.j.seqNo + 2 < U32_LIMIT && !CommitFrom(p, s.j.seqNo)
    ensures Carries(s, Pair(p, b), b)
  {
    hide Good, BacklogOf, InFoot, BlocksOf, CommitFrom, ClearOf;
    GoodIsSized(s);
    PairFits(s, p, b);
    NoBacklogIsClear(s, 2);
  }

  /** For every commit block there is a disk and a command carrying it that is half applied when power
      fails before its commit: the payload seals a descriptor left over in the ring. */
  lemma ForgedPayloadBreaks(b: Block) returns (s: Sys, ws: seq<BlockWrite>)
    requires CommitHeader(b) && R32(b, 8) + 2 < U32_LIMIT
    ensures Carries(s, ws, b) && s.j.seqNo == R32(b, 8) && |ws| == 2 && !IsAtomic(s, ws)
  {
    hide Good, BacklogOf, OldDesc, CommitWrites, Crash, ExecWrites, OldOrWhole, OldDisk, InFoot, Mounted, BlocksOf,
         ClearOf, IsAtomic, R32, Pair, ForgedDisk, Checksum, Carries;
    var q := R32(b, 8);
    s := OldGood(q);
    var p := MatchingBlock(q, R32(b, 12));
    ws := Pair(p, b);
    BothLogged(s, p, b);
    PairCarried(s, p, b);
    var m := ExecWrites(s, ws);
    NothingYet(m.d, CommitWrites(m.j, m.d));
    ForgedFound(m.d, q, p, b);
    ZeroField(0);
    ForgedIsNeither(s, m.d, q, p, b);
    NotAtCommit(s, ws, 0, 0);
  }

  lemma CarriedIsAtomic(s: Sys, ws: seq<BlockWrite>, b: Block)
    requires Carries(s, ws, b) && !CommitFrom(b, s.j.seqNo)
    ensures IsAtomic(s, ws)
  {
    hide Good, BacklogOf, InFoot, CommitFrom, IsAtomic, BlocksOf, ClearOf, Capacity;
    InRangeTargets(s, ws);
    FittingIsAtomic(s, ws);
  }

  /** The payload guard is exact: the commands that carry block `b` are atomic on all good disks, whatever
      their sequence number, if and only if the block does not begin like a commit block. */
  lemma PayloadGuardIsExact(b: Block)
    requires R32(b, 8) + 2 < U32_LIMIT
    ensures (forall s: Sys, ws: seq<BlockWrite> :: Carries(s, ws, b) ==> IsAtomic(s, ws)) <==> !CommitHeader(b)
  {
    hide Carries, IsAtomic;
    if CommitHeader(b) {
      var s, ws := ForgedPayloadBreaks(b);
    } else {
      forall s: Sys, ws: seq<BlockWrite> | Carries(s, ws, b)
        ensures IsAtomic(s, ws)
      {
        CarriedIsAtomic(s, ws, b);
      }
    }
  }
}
