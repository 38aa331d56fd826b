/** Where the ring position goes: behind the transaction that was committed or replayed, so that the next
    commands stay clear of it until the ring's end. */
module RingPosition {
  import opened Bytes
  import opened Collections
  import opened Wrappers
  import opened Disk
  import opened JournalFormat
  import opened Journal
  import opened JournalCrash
  import opened JournalRun
  import opened JournalExact
  import opened JournalGuards
  import opened BacklogGuard
  import opened BacklogExact

  // ---- a finished commit ----

  /** A finished commit leaves the position behind its transaction, in memory and in the journal superblock,
      and no backlog, so that every command is clear. */
  lemma CommitMoves(s: Sys, T: seq<Txn>)
    requires Inv(s, T) && s.j.pend != [] && s.j.seqNo + 1 < U32_LIMIT
    ensures var e := Exec(s, Commit);
      && Fits(e.d, s.j.base) && Behind(s.j.start, |s.j.pend|, e.j.start) && e.j.seqNo == s.j.seqNo + 1 && e.j.pend == []
      && SuperStart(e.d[s.j.base]) == e.j.start && SuperSeq(e.d[s.j.base]) == e.j.seqNo
      && Good(e) && BacklogOf(e) == [] && forall m: nat :: ClearOf(e, m)
  {
    hide CommitWrites, Chain, Apply, CommittedDisk, Backlog, OpenIsFree, Quiet, Home, View, Layout, BacklogOf, Good,
         ClearOf, SuperStart, SuperSeq;
    var e := Exec(s, Commit);
    CommitApplied(s);
    CommitDone(s, T);
    InvIsGood(e, []);
    CommittedSuper(s);
    forall m: nat
      ensures ClearOf(e, m)
    {
      NoBacklogIsClear(e, m);
    }
  }

  lemma CommittedSuper(s: Sys)
    requires WellSized(s) && Layout(s.j) && s.j.pend != [] && s.j.seqNo + 1 < U32_LIMIT
    ensures var e, b := CommitJbd(s.j), CommittedDisk(s)[s.j.base];
            SuperStart(b) == e.start && SuperSeq(b) == e.seqNo
  {
    hide EncodeSuper, HomesDone, SuperStart, SuperSeq;
    SuperRoundTrip(s.d[s.j.base], s.j.seqNo + 1, CommitJbd(s.j).start);
    assert CommittedDisk(s)[s.j.base] == SuperWrite(s.j, s.d).data == EncodeSuper(s.d[s.j.base], s.j.seqNo + 1,
        CommitJbd(s.j).start);
  }

  // ---- a mount after the seal ----

  /** Sealed, wherever the home writes had got to: the mount continues behind the transaction, which is now
      the last of the backlog. */
  lemma SealedMoves(s: Sys, T: seq<Txn>, t: nat, c: Disk)
    requires Inv(s, T) && s.j.pend != [] && s.j.seqNo + 1 < U32_LIMIT && 0 < t <= SECTORS && HomesApart(s, c, t)
    ensures Fits(c, s.j.base) && Behind(s.j.start, |s.j.pend|, Mounted(c, s.j.base).j.start)
    ensures Mounted(c, s.j.base).j == Jbd(s.j.base, Mounted(c, s.j.base).j.start, s.j.seqNo + 1, [])
    ensures Good(Mounted(c, s.j.base)) && BacklogOf(Mounted(c, s.j.base)) == T + [OpenTxn(s)]
    ensures |c| == |Mounted(c, s.j.base).d| == |s.d| && Mounted(c, s.j.base).d[s.j.base] == s.d[s.j.base]
  {
    hide EncodeDesc, EncodeCommit, Checksum, Chain, CommitFrom, IsCommit, InFoot, Mount, View, R32, SealedAt, Layout,
         TxnAt, Quiet, Recovers, Home, OpenTxn, Backlog, OpenIsFree, Torn, Apply, AllWrites, SealTorn, BacklogOf, Clean,
         Good;
    QuietAfterSeal(s, T, t, c);
    SealedAfterSeal(s, t, c);
    SealedTxn(s, c);
    OnlyOpenAndHomes(s, t, c);
    RecoverSealed(s, T, c);
    SealedRecovers(s, T, c);
    MountRecovers(c, s.j.base, T + [OpenTxn(s)], Advance(s.j.start, |s.j.pend|), s.j.seqNo + 1);
    InvIsGood(Mounted(c, s.j.base), T + [OpenTxn(s)]);
    CleanKeepsHead(c, s.j.base, AllWrites(T + [OpenTxn(s)]));
  }

  lemma OnlyOpenAndHomes(s: Sys, t: nat, c: Disk)
    requires WellSized(s) && Layout(s.j) && s.j.pend != [] && s.j.seqNo < U32_LIMIT && t <= SECTORS
    requires HomesApart(s, c, t)
    ensures forall blk: nat :: blk < |c| && !InOpen(s.j, blk) && !IsHome(s.j, blk) ==> c[blk] == s.d[blk]
    ensures c[s.j.base] == s.d[s.j.base]
  {
    hide EncodeDesc, EncodeCommit, Checksum, Torn;
  }

  lemma CleanKeepsHead(c: Disk, base: nat, ws: seq<RawWrite>)
    requires Fits(c, base) && InRange(c, ws) && Clean(c, base, ws)
    ensures Apply(c, ws)[base] == c[base]
  {
    ApplyFrame(c, ws, base);
  }

  /** Power fails after the first sector of the seal: the mount finds the position behind the transaction and
      the next number, whichever of the later writes were made. */
  lemma ReplayMoves(s: Sys, T: seq<Txn>, k: nat, t: nat)
    requires Inv(s, T) && s.j.pend != [] && s.j.seqNo + 1 < U32_LIMIT
    requires k <= |CommitWrites(s.j, s.d)| && t <= SECTORS && (k >= 2 || (k == 1 && t > 0))
    ensures var c := Crash(s.d, CommitWrites(s.j, s.d), k, t);
      && Fits(c, s.j.base) && Good(Mounted(c, s.j.base))
      && var m := Mounted(c, s.j.base);
      && Behind(s.j.start, |s.j.pend|, m.j.start) && m.j == Jbd(s.j.base, m.j.start, s.j.seqNo + 1, [])
      && |m.d| == |s.d|
      && (k < |s.j.pend| + 2 || (k == |s.j.pend| + 2 && t == 0) ==>
            BacklogOf(m) == T + [OpenTxn(s)] && m.d[s.j.base] == s.d[s.j.base])
      && (k > |s.j.pend| + 2 || (k == |s.j.pend| + 2 && t > 0) ==> BacklogOf(m) == [])
  {
    hide EncodeDesc, EncodeCommit, EncodeSuper, Checksum, Backlog, OpenIsFree, Quiet, Home, View, CommitWrites,
         SealWrites, SealedDisk, Crash, HomesApart, Behind, BacklogOf, Good, Mounted, OpenTxn, Layout;
    var n, c := |s.j.pend|, Crash(s.d, CommitWrites(s.j, s.d), k, t);
    CommitCrashCases(s, k, t);
    if k == 1 {
      TornSeal(s, t);
      SealedMoves(s, T, t, c);
    } else if k - 2 < n {
      HomesTorn(s, k - 2, t);
      SealedMoves(s, T, SECTORS, c);
    } else if k - 2 == n && t == 0 {
      SuperNotBegun(s);
      HomesDoneApart(s);
      SealedMoves(s, T, SECTORS, c);
    } else {
      SuperBegun(s, k - 2 - n, t);
      MovedOn(s, T);
    }
  }

  lemma TornSeal(s: Sys, t: nat)
    requires WellSized(s) && Layout(s.j) && s.j.pend != [] && s.j.seqNo < U32_LIMIT && t <= SECTORS
    ensures HomesApart(s, Crash(s.d, SealWrites(s.j, s.d), 1, t), t)
  {
    hide EncodeDesc, EncodeCommit, Checksum;
    SealApplied(s);
    var ws := SealWrites(s.j, s.d);
    assert ws[..1] == [ws[0]] && ws[..1][..0] == [];
    assert Apply(s.d, ws[..1]) == Described(s);
    assert Crash(s.d, ws, 1, t) == SealTorn(s, t);
  }

  lemma HomesTorn(s: Sys, k: nat, t: nat)
    requires WellSized(s) && Layout(s.j) && s.j.pend != [] && s.j.seqNo < U32_LIMIT && t <= SECTORS && k <= |s.j.pend|
    ensures InRange(SealedDisk(s), OpenTxn(s)) && HomesApart(s, Crash(SealedDisk(s), OpenTxn(s), k, t), SECTORS)
  {
    hide EncodeDesc, EncodeCommit, Checksum;
    OpenTxnClean(s);
    var c := Crash(SealedDisk(s), OpenTxn(s), k, t);
    TornEnds(s.d[s.j.base + s.j.start + 1 + |s.j.pend|], SealOf(s));
    assert SealTorn(s, SECTORS) == SealedDisk(s);
    forall blk: nat | blk < |c| && !IsHome(s.j, blk)
      ensures c[blk] == SealedDisk(s)[blk]
    {
      CrashFrame(SealedDisk(s), OpenTxn(s), k, t, blk);
    }
  }

  lemma SuperNotBegun(s: Sys)
    requires WellSized(s) && Layout(s.j) && s.j.pend != [] && s.j.seqNo + 1 < U32_LIMIT
    ensures SuperCrash(s, 0, 0) == HomesDone(s)
  {
    hide HomesDone, EncodeSuper;
    var d, w := HomesDone(s), SuperWrite(s.j, s.d);
    SealedSuper(s);
    assert [w][..0] == [];
    ApplyNothing(d);
    TornEnds(d[w.blk], w.data);
  }

  lemma SuperBegun(s: Sys, k: nat, t: nat)
    requires WellSized(s) && Layout(s.j) && s.j.pend != [] && s.j.seqNo + 1 < U32_LIMIT
    requires k <= 1 && t <= SECTORS && (k == 1 || t > 0)
    ensures SuperCrash(s, k, t) == CommittedDisk(s)
  {
    hide EncodeSuper, HomesDone;
    var d, w := HomesDone(s), SuperWrite(s.j, s.d);
    SealedSuper(s);
    TornSuper(s.d[s.j.base], s.j.seqNo + 1, CommitJbd(s.j).start, t);
    assert [w][..0] == [] && [w][..1] == [w];
    ApplyNothing(d);
  }

  lemma MovedOn(s: Sys, T: seq<Txn>)
    requires Inv(s, T) && s.j.pend != [] && s.j.seqNo + 1 < U32_LIMIT
    ensures var c := CommittedDisk(s);
      && Fits(c, s.j.base) && Good(Mounted(c, s.j.base)) && BacklogOf(Mounted(c, s.j.base)) == []
      && var m := Mounted(c, s.j.base);
      && Behind(s.j.start, |s.j.pend|, m.j.start) && m.j == Jbd(s.j.base, m.j.start, s.j.seqNo + 1, [])
      && |m.d| == |s.d|
  {
    hide CommittedDisk, Backlog, OpenIsFree, Quiet, Home, View, Layout, BacklogOf, Good, SuperStart, SuperSeq, TxnAt,
         Mounted;
    var c, e := CommittedDisk(s), CommitJbd(s.j);
    CommitDone(s, T);
    CommittedSuper(s);
    QuietMeansNoTxn(c, s.j.base, e.start, e.seqNo);
    EmptyChain(c, s.j.base, e.start, e.seqNo);
    MountRecovers(c, s.j.base, [], e.start, e.seqNo);
    ApplyNothing(c);
    InvIsGood(Sys(e, c), []);
  }

  // ---- what is clear then ----

  lemma {:induction false} FootSnoc(b: nat, base: nat, s0: nat, T: seq<Txn>, t: Txn, d: Disk, q0: nat, s1: nat, q1: nat)
    requires Fits(d, base) && Chain(d, base, s0, q0, T, s1, q1)
    ensures InFoot(b, base, s0, T + [t]) <==> InFoot(b, base, s0, T) || base + s1 <= b <= base + s1 + 1 + |t|
    decreases |T|
  {
    hide TxnAt;
    if T == [] {
      assert [t][1..] == [];
    } else {
      assert (T + [t])[1..] == T[1..] + [t] && (T + [t])[0] == T[0];
      FootSnoc(b, base, Advance(s0, |T[0]|), T[1..], t, d, q0 + 1, s1, q1);
    }
  }

  /** The backlog lies below the open transaction: it did not wrap around the ring's end. */
  ghost predicate Straight(s: Sys, T: seq<Txn>)
    requires Fits(s.d, s.j.base)
  {
    forall b: nat :: InFoot(b, s.j.base, SuperStart(s.d[s.j.base]), T) ==>
      s.j.base + SuperStart(s.d[s.j.base]) <= b < s.j.base + s.j.start
  }

  lemma NoneIsStraight(s: Sys)
    requires Fits(s.d, s.j.base)
    ensures Straight(s, [])
  {
  }

  /** After a replay the commands that are clear of the backlog are known: all of them while the position is
      behind the transaction, and after a wrap those that end below the slot the superblock points at. */
  lemma ClearAfterReplay(s: Sys, T: seq<Txn>, m: Sys, n: nat)
    requires Inv(s, T) && s.j.pend != [] && Straight(s, T) && SuperStart(s.d[s.j.base]) <= s.j.start
    requires m.j.base == s.j.base && Behind(s.j.start, |s.j.pend|, m.j.start) && |m.d| == |s.d|
      && m.d[s.j.base] == s.d[s.j.base] && BacklogOf(m) == T + [OpenTxn(s)]
    ensures ClearOf(m, n) <==> m.j.start != 1 || n + 2 < SuperStart(s.d[s.j.base])
  {
    hide TxnAt, Chain, Quiet, OpenIsFree, OpenTxn, BacklogOf, SuperStart, SuperSeq, R32, InFoot;
    var base, s0 := s.j.base, SuperStart(s.d[s.j.base]);
    forall b: nat
      ensures InFoot(b, base, s0, T + [OpenTxn(s)]) <==>
              InFoot(b, base, s0, T) || base + s.j.start <= b <= base + s.j.start + 1 + |s.j.pend|
    {
      FootSnoc(b, base, s0, T, OpenTxn(s), s.d, SuperSeq(s.d[base]), s.j.start, s.j.seqNo);
    }
    FirstFoot(s, T);
    if m.j.start == 1 && n + 2 >= s0 {
      assert InFoot(base + s0, base, s0, T + [OpenTxn(s)]);
    }
  }

  /** The slot the superblock points at is the first of the backlog, or of the open transaction. */
  lemma FirstFoot(s: Sys, T: seq<Txn>)
    requires Inv(s, T)
    ensures var s0 := SuperStart(s.d[s.j.base]);
            s0 >= 1 && if T == [] then s0 == s.j.start else InFoot(s.j.base + s0, s.j.base, s0, T)
  {
    hide TxnAt, Quiet, OpenIsFree, SuperSeq, R32;
  }

  /** Right after a replay that left the position inside the ring, small commands are atomic again: those of
      up to `n` blocks, if so many fit behind the replayed transaction. */
  lemma AtomicAfterReplay(s: Sys, T: seq<Txn>, k: nat, t: nat, ws: seq<BlockWrite>)
    requires Inv(s, T) && s.j.pend != [] && s.j.seqNo + 3 < U32_LIMIT
    requires Straight(s, T) && SuperStart(s.d[s.j.base]) <= s.j.start
    requires k <= |CommitWrites(s.j, s.d)| && t <= SECTORS && (k >= 2 || (k == 1 && t > 0))
    requires s.j.start + |s.j.pend| + 3 + |BlocksOf(ws)| <= LAST_SLOT && 1 <= |BlocksOf(ws)|
    requires InPlace(|s.d|, s.j.base, TargetsOf(ws))
      && forall i :: 0 <= i < |ws| ==> !CommitFrom(ws[i].buf, s.j.seqNo + 1)
    ensures var c := Crash(s.d, CommitWrites(s.j, s.d), k, t);
            Fits(c, s.j.base) && IsAtomic(Mounted(c, s.j.base), ws)
  {
    hide EncodeDesc, EncodeCommit, EncodeSuper, Checksum, Layout, Backlog, OpenIsFree, Quiet, CommitWrites, Crash,
         BacklogOf, Good, Mounted, OpenTxn, ClearOf, IsAtomic, BlocksOf, CommitFrom, Straight, SuperStart;
    var m := Mounted(Crash(s.d, CommitWrites(s.j, s.d), k, t), s.j.base);
    var n := |BlocksOf(ws)|;
    ReplayMoves(s, T, k, t);
    if BacklogOf(m) == [] {
      NoBacklogIsClear(m, n);
    } else {
      ClearAfterReplay(s, T, m, n);
    }
    ClearCommand(m, ws);
  }

  // ---- any disk ----

  /** The slots the transactions take, one behind the other. */
  function Slots(T: seq<Txn>): nat {
    if T == [] then 0 else |T[0]| + 2 + Slots(T[1..])
  }

  lemma {:induction false} ChainEnds(d: Disk, base: nat, s0: nat, q0: nat, T: seq<Txn>, s1: nat, q1: nat)
    requires Fits(d, base) && Chain(d, base, s0, q0, T, s1, q1) && s0 + Slots(T) <= LAST_SLOT
    ensures s1 == s0 + Slots(T) && q1 == q0 + |T|
    ensures forall b: nat :: InFoot(b, base, s0, T) <==> T != [] && base + s0 <= b < base + s1
    decreases |T|
  {
    hide TxnAt;
    if T != [] {
      ChainEnds(d, base, s0 + |T[0]| + 2, q0 + 1, T[1..], s1, q1);
    }
  }

  /** The mount of any disk whose sealed transactions end inside the ring: the position is behind the last
      of them, and every command is clear of them. */
  lemma MountEndsBehind(c: Disk, base: nat, T: seq<Txn>, s1: nat, q1: nat)
    requires Fits(c, base) && Recovers(c, base, T, s1, q1) && SuperStart(c[base]) + Slots(T) <= LAST_SLOT
    requires R32(c[base], 0) == MAGIC && Good(Mounted(c, base)) && BacklogOf(Mounted(c, base)) == T
    ensures Mounted(c, base).j == Jbd(base, SuperStart(c[base]) + Slots(T), SuperSeq(c[base]) + |T|, [])
    ensures forall n: nat :: ClearOf(Mounted(c, base), n)
  {
    hide TxnAt, Chain, Good, BacklogOf, SuperStart, SuperSeq, InFoot, Mounted, Slots, Clean, R32;
    RecoversChain(c, base, T, s1, q1);
    MountRecovers(c, base, T, s1, q1);
    ChainEnds(c, base, SuperStart(c[base]), SuperSeq(c[base]), T, s1, q1);
    CleanKeepsHead(c, base, AllWrites(T));
  }

  lemma RecoversChain(c: Disk, base: nat, T: seq<Txn>, s1: nat, q1: nat)
    requires Fits(c, base) && Recovers(c, base, T, s1, q1)
    ensures Chain(c, base, SuperStart(c[base]), SuperSeq(c[base]), T, s1, q1)
  {
  }
}
