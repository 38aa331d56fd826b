/** Replayed transactions the superblock still points at: where a command runs into them it is not atomic. */
module BacklogGuard {
  import opened Bytes
  import opened Collections
  import opened Wrappers
  import opened Disk
  import opened JournalFormat
  import opened Journal
  import opened JournalCrash
  import opened JournalRun
  import opened JournalExact
  import opened JournalGuards

  /** A recovered system whose one replayed transaction began at slot `s0` and filled the ring to its
      end, so that the next one begins at slot 1. */
  ghost predicate AfterWrap(s: Sys, s0: nat) {
    && Good(s) && s.j.pend == [] && s.j.start == 1 && s.j.seqNo + 2 < U32_LIMIT && s0 <= 1021
    && SuperStart(s.d[s.j.base]) == s0 && |BacklogOf(s)| == 1 && |BacklogOf(s)[0]| == 1022 - s0
  }

  /** The command may be logged at all: its blocks are in place and no payload is a commit block. */
  ghost predicate Plain(s: Sys, ws: seq<BlockWrite>) {
    InPlace(|s.d|, s.j.base, TargetsOf(ws)) && forall i :: 0 <= i < |ws| ==> !CommitFrom(ws[i].buf, s.j.seqNo)
  }

  /** The slots of a transaction of `n` blocks stay below the backlog. */
  lemma ClearIff(s: Sys, s0: nat, n: nat)
    requires AfterWrap(s, s0) && 1 <= n <= 1020
    ensures ClearOf(s, n) <==> n + 2 < s0
  {
    hide Inv, ScanBacklog;
    var T, base := BacklogOf(s), s.j.base;
    hide BacklogOf;
    assert T[1..] == [];
    assert forall b: nat :: InFoot(b, base, s0, T) <==> base + s0 <= b <= base + 1023;
    if n + 2 >= s0 {
      assert InFoot(base + n + 2, base, s0, T);
    }
  }

  lemma ClearIsAtomic(s: Sys, s0: nat, ws: seq<BlockWrite>)
    requires AfterWrap(s, s0) && Plain(s, ws) && 1 <= |BlocksOf(ws)| <= 1020 && |BlocksOf(ws)| + 2 < s0
    ensures IsAtomic(s, ws)
  {
    hide Good, BacklogOf, InFoot, CommitFrom, IsAtomic, BlocksOf;
    ClearIff(s, s0, |BlocksOf(ws)|);
    hide ClearOf;
    assert forall i :: 0 <= i < |ws| ==> TargetsOf(ws)[i] == ws[i].blk;
    FittingIsAtomic(s, ws);
  }

  // ---- a backlog ----

  const BIG: nat := 2100

  /** `n` neighbouring blocks behind the journal. */
  function Homes(n: nat): (t: seq<nat>)
    ensures |t| == n && forall k :: 0 <= k < n ==> t[k] == 1026 + k
  {
    seq(n, k requires 0 <= k < n => 1026 + k)
  }

  lemma HomesDistinct(n: nat)
    ensures Distinct(Homes(n)) && |Elems(Homes(n))| == n
  {
    DistinctSize(Homes(n));
  }

  /** A sealed transaction that ends at the ring's end is replayed, and the ring begins anew. */
  lemma WrapMount(m: Sys, s0: nat) returns (s: Sys)
    requires Inv(m, []) && 2 <= s0 <= 1021 && m.j.base == DEMO_BASE && m.j.start == s0 && m.j.seqNo == 1
      && |m.j.pend| == 1022 - s0
    requires m.d[DEMO_BASE] == DemoSuper(s0)
    ensures AfterWrap(s, s0) && s.j == Jbd(DEMO_BASE, 1, 2, []) && |s.d| == |m.d| && s.d[DEMO_BASE] == DemoSuper(s0)
    ensures Home(s.d, DEMO_BASE) == View(m)
  {
    hide EncodeDesc, EncodeCommit, Checksum, Chain, CommitFrom, Mount, View, Home, SealedAt, TxnAt, Quiet, OpenIsFree,
         SealedDisk, OpenTxn, Good, BacklogOf, Recovers, DemoSuper, SuperStart, SuperSeq, AllWrites, Clean;
    var c, T := SealedDisk(m), [OpenTxn(m)];
    SealTornWhole(m);
    QuietAfterSeal(m, [], SECTORS, c);
    SealedAfterSeal(m, SECTORS, c);
    SealedTxn(m, c);
    OnlyHomesAndOpen(m, c);
    assert [] + T == T;
    RecoverSealed(m, [], c);
    MountRecovers(c, DEMO_BASE, T, 1, 2);
    s := Mounted(c, DEMO_BASE);
    InvIsGood(s, T);
    CleanKeepsRing(c, DEMO_BASE, AllWrites(T));
    RingBlocks(s.d, c, DEMO_BASE);
    SealKeepsSuper(m);
    DemoSuperFields(s0);
  }

  lemma OnlyHomesAndOpen(m: Sys, c: Disk)
    requires WellSized(m) && m.j.pend != [] && m.j.seqNo < U32_LIMIT && c == SealedDisk(m)
    ensures forall blk: nat :: blk < |c| && !InOpen(m.j, blk) && !IsHome(m.j, blk) ==> c[blk] == m.d[blk]
  {
    hide EncodeDesc, EncodeCommit, Checksum;
  }

  /** Such a system, with block 0 still zero. */
  lemma WrapSystem(s0: nat) returns (s: Sys)
    requires 2 <= s0 <= 1021
    ensures AfterWrap(s, s0) && s.j == Jbd(DEMO_BASE, 1, 2, []) && |s.d| == BIG && s.d[DEMO_BASE] == DemoSuper(s0)
    ensures s.d[0] == ZERO_BLOCK
  {
    hide Inv, Good, BacklogOf, CommitFrom, FilledBlock, BlocksOf, View, Home, Exec, ExecWrites, Homes, FillAll,
         Overwrite, DemoSuper, ClearOf, AfterWrap, Elems, Distinct;
    var targets := Homes(1022 - s0);
    var s1 := BankReady(s0, targets);
    var ws := FillAll(targets);
    HomesDistinct(1022 - s0);
    FillTargets(targets);
    TargetBlocks(ws);
    FittingStaysUnsplit(s1, ws);
    var m := ExecWrites(s1, ws);
    s := WrapMount(m, s0);
    InvSized(m);
    ZeroStays(s1, m, s, targets);
  }

  lemma InvSized(m: Sys)
    requires Inv(m, [])
    ensures WellSized(m)
  {
  }

  lemma BankReady(s0: nat, targets: seq<nat>) returns (s: Sys)
    requires 2 <= s0 <= 1021 && targets == Homes(1022 - s0)
    ensures CommandReady(s, FillAll(targets)) && s == Sys(Jbd(DEMO_BASE, s0, 1, []), BlankJournal(BIG, DEMO_BASE, s0))
    ensures BacklogOf(s) == [] && Inv(s, []) && s.d[DEMO_BASE] == DemoSuper(s0) && s.d[0] == ZERO_BLOCK
  {
    hide CommandReady, Inv, BacklogOf, DemoSuper;
    s := BlankReady(BIG, DEMO_BASE, s0, targets);
  }

  lemma ZeroStays(s1: Sys, m: Sys, s: Sys, targets: seq<nat>)
    requires WellSized(s1) && s1.j.base == DEMO_BASE && |s1.d| == BIG && s1.d[0] == ZERO_BLOCK && |s.d| == BIG
    requires WellSized(m) && View(m) == Overwrite(Home(s1.d, DEMO_BASE), FillAll(targets))
      && Home(s.d, DEMO_BASE) == View(m)
    requires forall k :: 0 <= k < |targets| ==> targets[k] >= 1026
    ensures s.d[0] == ZERO_BLOCK
  {
    hide View, Overwrite, FilledBlock, FillAll, WellSized, BlocksOf;
    TargetBlocks(FillAll(targets));
    FillTargets(targets);
    OverwriteOther(Home(s1.d, DEMO_BASE), FillAll(targets), 0);
    HomeAt(s.d, DEMO_BASE, 0);
  }

  // ---- a command that runs into it ----

  /** Block 0 and `n - 1` blocks behind the journal. */
  function CommandTargets(n: nat): (t: seq<nat>)
    requires n >= 1
    ensures |t| == n && t[0] == 0 && forall k :: 1 <= k < n ==> t[k] == 1025 + k
  {
    [0] + Homes(n - 1)
  }

  lemma CommandDistinct(n: nat)
    requires n >= 1
    ensures Distinct(CommandTargets(n)) && |Elems(CommandTargets(n))| == n
  {
    DistinctSize(CommandTargets(n));
  }

  function PendFor(targets: seq<nat>): (p: seq<Pend>)
    ensures |p| == |targets| && forall k :: 0 <= k < |p| ==> p[k] == Pend(targets[k], 2 + k)
  {
    seq(|targets|, k requires 0 <= k < |targets| => Pend(targets[k], 2 + k))
  }

  /** The first `i` blocks logged to slots 2, 3, ... of the ring. */
  ghost predicate LoggedFrom(s: Sys, m: Sys, targets: seq<nat>, i: nat) {
    && i <= |targets| && m.j == s.j.(pend := PendFor(targets[..i])) && |m.d| == |s.d|
    && forall b: nat :: b < |m.d| ==> m.d[b] == if s.j.base + 2 <= b < s.j.base + 2 + i then FilledBlock() else s.d[b]
  }

  /** Logging does not ask what the slots held before. */
  lemma {:induction false} RawLogged(s: Sys, targets: seq<nat>, i: nat)
    requires WellSized(s) && s.j.start == 1 && s.j.pend == [] && s.j.seqNo + 1 < U32_LIMIT
    requires InPlace(|s.d|, s.j.base, targets) && Distinct(targets) && |targets| <= 1020 && i <= |targets|
    ensures LoggedFrom(s, ExecWrites(s, FillAll(targets)[..i]), targets, i)
    decreases i
  {
    hide FilledBlock, FillAll;
    var ws := FillAll(targets);
    if i > 0 {
      RawLogged(s, targets, i - 1);
      var m := ExecWrites(s, ws[..i - 1]);
      LogOne(s, m, targets, i - 1);
      assert ws[..i][..i - 1] == ws[..i - 1] && ws[..i][i - 1] == BlockWrite(targets[i - 1], FilledBlock());
    } else {
      assert ws[..0] == [] && targets[..0] == [] && PendFor([]) == [];
    }
  }

  lemma LogOne(s: Sys, m: Sys, targets: seq<nat>, i: nat)
    requires WellSized(s) && s.j.start == 1 && s.j.pend == [] && s.j.seqNo + 1 < U32_LIMIT
    requires InPlace(|s.d|, s.j.base, targets) && Distinct(targets) && |targets| <= 1020 && i < |targets|
      && LoggedFrom(s, m, targets, i)
    ensures WellSized(m) && m.j.seqNo + 1 < U32_LIMIT
      && LoggedFrom(s, Exec(m, Write(targets[i], FilledBlock())), targets, i + 1)
  {
    hide FilledBlock, CommitWrites, Distinct, Elems;
    var t := targets[i];
    NotPending(targets, i);
    NoCommitYet(m, i, t);
    ApplyOne(m.d, RawWrite(m.j.base + 2 + i, FilledBlock()));
    assert PendFor(targets[..i + 1]) == PendFor(targets[..i]) + [Pend(t, 2 + i)];
    hide WriteWrites, WriteJbd, Apply;
  }

  lemma NoCommitYet(m: Sys, i: nat, t: nat)
    requires WellSized(m) && m.j.start == 1 && |m.j.pend| == i < 1020 && m.j.seqNo + 1 < U32_LIMIT && t < |m.d|
    requires !InJournal(m.j.base, t) && FindPend(m.j.pend, t) == None
    ensures WriteWrites(m, t, FilledBlock()) == [RawWrite(m.j.base + 2 + i, FilledBlock())]
    ensures WriteJbd(m.j, t) == m.j.(pend := m.j.pend + [Pend(t, 2 + i)])
  {
    hide FilledBlock, CommitWrites, FindPend;
  }

  lemma NotPending(targets: seq<nat>, i: nat)
    requires Distinct(targets) && i < |targets|
    ensures FindPend(PendFor(targets[..i]), targets[i]) == None
  {
    var p := PendFor(targets[..i]);
    assert forall k :: 0 <= k < |p| ==> p[k].blk == targets[..i][k] == targets[k];
  }

  /** The demo journal at slot 1, with one of the first two sequence numbers. */
  ghost predicate AtOne(s: Sys) {
    WellSized(s) && s.j == Jbd(DEMO_BASE, 1, s.j.seqNo, []) && 1 <= s.j.seqNo <= 2 && |s.d| >= BIG
  }

  lemma LoggedLayout(s: Sys, m: Sys, n: nat)
    requires AtOne(s) && 1 <= n <= 1020
    requires LoggedFrom(s, m, CommandTargets(n), n)
    ensures WellSized(m) && Layout(m.j) && m.j.pend != [] && |m.j.pend| == n && m.j.start == 1
      && m.j.seqNo == s.j.seqNo && m.j.base == DEMO_BASE
    ensures OpenTxn(m)[0] == RawWrite(0, FilledBlock()) && m.d[0] == s.d[0] && m.d[DEMO_BASE] == s.d[DEMO_BASE]
    ensures forall b: nat :: DEMO_BASE + 2 <= b < DEMO_BASE + 2 + n ==> m.d[b] == FilledBlock()
  {
    hide FilledBlock;
    CommandDistinct(n);
    var t := CommandTargets(n);
    assert t[..n] == t;
    forall i, k | 0 <= i < k < n
      ensures m.j.pend[i].blk != m.j.pend[k].blk
    {
      assert t[i] != t[k];
    }
  }

  /** The slot the superblock points at holds no descriptor any more. */
  lemma SlotTaken(m: Sys, s0: nat, n: nat)
    requires WellSized(m) && Layout(m.j) && m.j.pend != [] && |m.j.pend| == n && m.j.start == 1 && m.j.seqNo == 2
      && m.j.base == DEMO_BASE
    requires forall b: nat :: DEMO_BASE + 2 <= b < DEMO_BASE + 2 + n ==> m.d[b] == FilledBlock()
    requires 2 <= s0 <= n + 2
    ensures !IsDesc(SealedDisk(m)[DEMO_BASE + s0], 1)
  {
    hide EncodeDesc, EncodeCommit, Checksum, Layout, FilledBlock;
    CommitRoundTrip(2, Checksum(DescOf(m.j), Logged(m.j, m.d)), n);
    FilledIsNoDesc();
  }

  lemma FilledIsNoDesc()
    ensures !IsDesc(FilledBlock(), 1)
  {
  }

  /** Recovery finds nothing at the slot the superblock points at. */
  lemma NothingFound(c: Disk, s0: nat)
    requires |c| >= BIG && 2 <= s0 <= 1023 && c[DEMO_BASE] == DemoSuper(s0) && !IsDesc(c[DEMO_BASE + s0], 1)
    ensures Fits(c, DEMO_BASE) && Mounted(c, DEMO_BASE).d == c
  {
    hide IsDesc, Checksum, Replay, TxnWrites, DemoSuper, SuperSeq, SuperStart;
    DemoSuperFields(s0);
    assert TxnAt(c, DEMO_BASE, s0, 1) == None;
    assert Recovers(c, DEMO_BASE, [], s0, 1);
    MountRecovers(c, DEMO_BASE, [], s0, 1);
    ApplyNothing(c);
  }

  /** A half-written block 0 is neither the old nor the new one. */
  lemma HalfIsNeither(s: Sys, c: Disk, ws: seq<BlockWrite>, whole: Disk)
    requires s.j.base == DEMO_BASE && |s.d| == |c| >= BIG && s.d[0] == ZERO_BLOCK
    requires Fits(c, DEMO_BASE) && Mounted(c, DEMO_BASE).d == c && c[0] == Torn(ZERO_BLOCK, FilledBlock(), 4)
    requires whole == Overwrite(Home(s.d, DEMO_BASE), ws) && whole[0] == FilledBlock()
    ensures !OldOrWhole(c, s, ws)
  {
    hide Mounted, RecoversTo, Overwrite;
    var h := Home(s.d, DEMO_BASE);
    assert c[0][0] == 1 && c[0][4095] == 0 && FilledBlock()[4095] == 1 && ZERO_BLOCK[0] == 0;
    assert Home(c, DEMO_BASE)[0] == c[0] && h[0] == ZERO_BLOCK;
    if RecoversTo(c, DEMO_BASE, h) {
      RecoveredHome(c, DEMO_BASE, h);
    }
    if RecoversTo(c, DEMO_BASE, whole) {
      RecoveredHome(c, DEMO_BASE, whole);
    }
  }

  lemma BacklogLost(s: Sys, s0: nat, n: nat)
    requires 2 <= s0 <= 1021 && 1 <= n <= 1020 && n + 2 >= s0
    requires WellSized(s) && s.j == Jbd(DEMO_BASE, 1, 2, []) && |s.d| == BIG && s.d[DEMO_BASE] == DemoSuper(s0)
      && s.d[0] == ZERO_BLOCK
    ensures !IsAtomic(s, FillAll(CommandTargets(n)))
  {
    hide FilledBlock, FillAll, CommitWrites, Crash, OldOrWhole, LoggedFrom, CommandTargets, ExecWrites;
    LoggedCommand(s, n);
    WholeCommand(FillAll(CommandTargets(n)), n);
    HalfWay(s, ExecWrites(s, FillAll(CommandTargets(n))), s0, n);
    NotAtCommit(s, FillAll(CommandTargets(n)), 2, 4);
  }

  lemma LoggedCommand(s: Sys, n: nat)
    requires AtOne(s) && 1 <= n <= 1020
    ensures InPlace(|s.d|, s.j.base, CommandTargets(n))
    ensures var m := ExecWrites(s, FillAll(CommandTargets(n)));
            WellSized(m) && |m.d| == |s.d| && LoggedFrom(s, m, CommandTargets(n), n)
  {
    var targets := CommandTargets(n);
    assert InPlace(|s.d|, s.j.base, targets);
    CommandDistinct(n);
    hide FilledBlock, FillAll, ExecWrites, LoggedFrom, CommandTargets, Elems, Distinct, InPlace;
    RawLogged(s, targets, n);
    WholeCommand(FillAll(targets), n);
    LoggedLayout(s, ExecWrites(s, FillAll(targets)), n);
  }

  /** Not atomic at a point inside the commit. */
  lemma NotAtCommit(s: Sys, ws: seq<BlockWrite>, k: nat, t: nat)
    requires WellSized(s) && s.j.seqNo + 1 < U32_LIMIT && t <= SECTORS
      && forall n :: 0 <= n < |ws| ==> ws[n].blk < |s.d|
    requires var m := ExecWrites(s, ws);
      WellSized(m) && m.j.seqNo + 1 < U32_LIMIT && k <= |CommitWrites(m.j, m.d)|
        && !OldOrWhole(Crash(m.d, CommitWrites(m.j, m.d), k, t), s, ws)
    ensures !IsAtomic(s, ws)
  {
    hide CommitWrites, Crash, OldOrWhole, ExecWrites;
    assert ws[..|ws|] == ws;
    assert !AtomicAt(s, ws, |ws|, k, t);
  }

  /** Power fails after the seal and half of block 0: recovery stops at the slot the superblock points at. */
  lemma HalfWay(s: Sys, m: Sys, s0: nat, n: nat)
    requires 2 <= s0 <= 1021 && 1 <= n <= 1020 && n + 2 >= s0
    requires WellSized(s) && s.j == Jbd(DEMO_BASE, 1, 2, []) && |s.d| == BIG && s.d[DEMO_BASE] == DemoSuper(s0)
      && s.d[0] == ZERO_BLOCK
    requires WellSized(m) && |m.d| == BIG && LoggedFrom(s, m, CommandTargets(n), n)
    ensures m.j.seqNo + 1 < U32_LIMIT && 2 <= |CommitWrites(m.j, m.d)|
    ensures !OldOrWhole(Crash(m.d, CommitWrites(m.j, m.d), 2, 4), s, FillAll(CommandTargets(n)))
  {
    hide FilledBlock, FillAll, CommitWrites, SealedDisk, Crash, OldOrWhole, LoggedFrom, CommandTargets, OpenTxn, Layout,
         IsDesc, DemoSuper;
    LoggedLayout(s, m, n);
    SlotTaken(m, s0, n);
    StuckHalfWay(s, m, s0, n, CommandTargets(n));
  }

  /** The same for any slot without a descriptor, and a command that begins with these blocks. */
  lemma StuckHalfWay(s: Sys, m: Sys, s0: nat, n: nat, all: seq<nat>)
    requires 2 <= s0 <= 1023 && AtOne(s) && s.d[DEMO_BASE] == DemoSuper(s0) && s.d[0] == ZERO_BLOCK
    requires 1 <= n <= 1020 && WellSized(m) && |m.d| == |s.d| && LoggedFrom(s, m, CommandTargets(n), n)
    requires Layout(m.j) && m.j.pend != [] && !IsDesc(SealedDisk(m)[DEMO_BASE + s0], 1)
    requires |all| >= 1 && all[0] == 0
    ensures m.j.seqNo + 1 < U32_LIMIT && 2 <= |CommitWrites(m.j, m.d)|
    ensures !OldOrWhole(Crash(m.d, CommitWrites(m.j, m.d), 2, 4), s, FillAll(all))
  {
    hide FilledBlock, FillAll, CommitWrites, SealedDisk, Crash, Home, Overwrite, DemoSuper, OldOrWhole, LoggedFrom,
         CommandTargets, OpenTxn, Torn, Layout, Mounted, IsDesc;
    LoggedLayout(s, m, n);
    HalfHome(m, RawWrite(0, FilledBlock()));
    var c := Crash(m.d, CommitWrites(m.j, m.d), 2, 4);
    SealKeepsSuper(m);
    NothingFound(c, s0);
    FirstFilled(s, all);
    HalfIsNeither(s, c, FillAll(all), Overwrite(Home(s.d, DEMO_BASE), FillAll(all)));
  }

  lemma WholeCommand(ws: seq<BlockWrite>, n: nat)
    requires |ws| == n
    ensures ws[..n] == ws && CommandOp(ws, n) == Commit
  {
  }

  lemma FirstFilled(s: Sys, targets: seq<nat>)
    requires |s.d| >= BIG && |targets| >= 1 && targets[0] == 0
    ensures Overwrite(Home(s.d, DEMO_BASE), FillAll(targets))[0] == FilledBlock()
  {
    hide FilledBlock, Overwrite, BlocksOf, Home;
    InBlocks(FillAll(targets), 0);
    OverwriteFilled(Home(s.d, DEMO_BASE), FillAll(targets), 0);
  }

  /** The backlog guard is exact for a backlog that filled the ring to its end: commands of `n` blocks
      run after such a recovery, with the superblock still at slot `s0`, are atomic on all such systems
      if and only if their descriptor, copies and commit block stay below that slot. */
  lemma BacklogGuardIsExact(s0: nat, n: nat)
    requires 2 <= s0 <= 1021 && 1 <= n <= 1020
    ensures (forall s: Sys, ws: seq<BlockWrite> ::
               AfterWrap(s, s0) && Plain(s, ws) && |BlocksOf(ws)| == n ==> IsAtomic(s, ws))
            <==> n + 2 < s0
  {
    hide IsAtomic, AfterWrap, Plain, BlocksOf, FillAll, CommandTargets;
    if n + 2 < s0 {
      forall s: Sys, ws: seq<BlockWrite> | AfterWrap(s, s0) && Plain(s, ws) && |BlocksOf(ws)| == n
        ensures IsAtomic(s, ws)
      {
        ClearIsAtomic(s, s0, ws);
      }
    } else {
      var s := WrapSystem(s0);
      var ws := FillAll(CommandTargets(n));
      GoodSized(s, s0);
      BacklogLost(s, s0, n);
      PlainFill(s, n);
      CommandDistinct(n);
      FillTargets(CommandTargets(n));
      TargetBlocks(ws);
    }
  }

  lemma GoodSized(s: Sys, s0: nat)
    requires AfterWrap(s, s0)
    ensures WellSized(s)
  {
    hide BacklogOf;
    GoodIsSized(s);
  }

  lemma PlainFill(s: Sys, n: nat)
    requires s.j == Jbd(DEMO_BASE, 1, 2, []) && |s.d| == BIG && 1 <= n <= 1020
    ensures Plain(s, FillAll(CommandTargets(n)))
  {
    hide FilledBlock;
    FillTargets(CommandTargets(n));
    assert !CommitFrom(FilledBlock(), 2) by {
      FilledIsNoCommit();
      LaterIsQuieter(FilledBlock(), 1);
    }
  }
}
