/** What a power failure at any point can do to the journal, and what recovery makes of it. */
module JournalCrash {
  import opened Bytes
  import opened Wrappers
  import opened Disk
  import opened JournalFormat
  import opened Journal

  // ---- chains of sealed transactions ----

  /** Recovery may apply the transaction: its targets are on the device and outside the journal. */
  predicate Clean(d: Disk, base: nat, t: Txn) {
    forall k :: 0 <= k < |t| ==> t[k].blk < |d| && !InJournal(base, t[k].blk)
  }

  /** Starting at slot `s0` with number `q0`, recovery meets exactly the transactions `T`,
      all clean, and then looks for number `q1` at slot `s1`. */
  ghost predicate Chain(d: Disk, base: nat, s0: nat, q0: nat, T: seq<Txn>, s1: nat, q1: nat)
    requires Fits(d, base)
    decreases |T|
  {
    if T == [] then s0 == s1 && q0 == q1
    else
      && TxnAt(d, base, s0, q0) == Some(T[0])
      && Clean(d, base, T[0])
      && Chain(d, base, Advance(s0, |T[0]|), q0 + 1, T[1..], s1, q1)
  }

  function AllWrites(T: seq<Txn>): seq<RawWrite> {
    if T == [] then [] else T[0] + AllWrites(T[1..])
  }

  /** The journal blocks the chain occupies. */
  predicate InFoot(blk: nat, base: nat, s0: nat, T: seq<Txn>)
    decreases |T|
  {
    T != [] && (base + s0 <= blk <= base + s0 + 1 + |T[0]| || InFoot(blk, base, Advance(s0, |T[0]|), T[1..]))
  }

  ghost predicate AgreeOnFoot(c: Disk, d: Disk, base: nat, s0: nat, T: seq<Txn>)
    requires Fits(d, base) && |c| == |d|
  {
    forall blk: nat :: InJournal(base, blk) && InFoot(blk, base, s0, T) ==> c[blk] == d[blk]
  }

  lemma {:induction false} ChainClean(d: Disk, base: nat, s0: nat, q0: nat, T: seq<Txn>, s1: nat, q1: nat)
    requires Fits(d, base) && Chain(d, base, s0, q0, T, s1, q1)
    ensures Clean(d, base, AllWrites(T)) && InRange(d, AllWrites(T))
    decreases |T|
  {
    hide TxnAt;
    if T != [] {
      ChainClean(d, base, Advance(s0, |T[0]|), q0 + 1, T[1..], s1, q1);
    }
  }

  /** Only the slots of a transaction decide whether recovery finds it. */
  lemma TxnFrame(c: Disk, d: Disk, base: nat, start: nat, seqNo: nat)
    requires Fits(d, base) && |c| == |d| && TxnAt(d, base, start, seqNo).Some?
    requires forall blk: nat :: base + start <= blk <= base + start + 1 + |TxnAt(d, base, start, seqNo).value| ==>
               c[blk] == d[blk]
    ensures TxnAt(c, base, start, seqNo) == TxnAt(d, base, start, seqNo)
  {
    hide Checksum, IsDesc, IsCommit;
    var n := R32(d[base + start], 12);
    assert c[base + start + 1..base + start + 1 + n] == d[base + start + 1..base + start + 1 + n];
    assert TxnWrites(c, base, start, n) == TxnWrites(d, base, start, n);
  }

  lemma CleanFrame(c: Disk, d: Disk, base: nat, t: Txn)
    requires |c| == |d| && Clean(d, base, t)
    ensures Clean(c, base, t)
  {
  }

  lemma {:induction false} ChainFrame(c: Disk, d: Disk, base: nat, s0: nat, q0: nat, T: seq<Txn>, s1: nat, q1: nat)
    requires Fits(d, base) && |c| == |d| && Chain(d, base, s0, q0, T, s1, q1)
    requires AgreeOnFoot(c, d, base, s0, T)
    ensures Chain(c, base, s0, q0, T, s1, q1)
    decreases |T|
  {
    hide TxnAt, Clean;
    if T != [] {
      assert TxnAt(d, base, s0, q0) == Some(T[0]) && s0 + 2 + |T[0]| <= JOURNAL_BLOCKS;
      forall blk: nat | base + s0 <= blk <= base + s0 + 1 + |T[0]|
        ensures c[blk] == d[blk]
      {
        assert InFoot(blk, base, s0, T);
      }
      TxnFrame(c, d, base, s0, q0);
      assert Clean(c, base, T[0]) by {
        CleanFrame(c, d, base, T[0]);
      }
      var s := Advance(s0, |T[0]|);
      assert AgreeOnFoot(c, d, base, s, T[1..]) by {
        forall blk: nat | InJournal(base, blk) && InFoot(blk, base, s, T[1..])
          ensures c[blk] == d[blk]
        {
          assert InFoot(blk, base, s0, T);
        }
      }
      ChainFrame(c, d, base, s, q0 + 1, T[1..], s1, q1);
    }
  }

  /** A transaction sealed where the chain ends extends the chain. */
  lemma {:induction false} ChainSnoc(d: Disk, base: nat, s0: nat, q0: nat, T: seq<Txn>, s1: nat, q1: nat, t: Txn)
    requires Fits(d, base) && Chain(d, base, s0, q0, T, s1, q1)
    requires TxnAt(d, base, s1, q1) == Some(t) && Clean(d, base, t)
    ensures Chain(d, base, s0, q0, T + [t], Advance(s1, |t|), q1 + 1)
    ensures AllWrites(T + [t]) == AllWrites(T) + t
    decreases |T|
  {
    hide TxnAt, Clean;
    if T == [] {
      assert (T + [t])[1..] == [];
      assert AllWrites([]) == [] && AllWrites([t]) == t + AllWrites([t][1..]);
    } else {
      ChainSnoc(d, base, Advance(s0, |T[0]|), q0 + 1, T[1..], s1, q1, t);
      assert (T + [t])[1..] == T[1..] + [t];
      assert (T[0] + AllWrites(T[1..])) + t == T[0] + (AllWrites(T[1..]) + t);
    }
  }

  lemma SameRing(c: Disk, d: Disk, base: nat)
    requires Fits(d, base) && |c| == |d|
    requires forall blk: nat :: InJournal(base, blk) ==> c[blk] == d[blk]
    ensures Ring(c, base) == Ring(d, base)
  {
  }

  lemma RingBlocks(c: Disk, d: Disk, base: nat)
    requires Fits(d, base) && |c| == |d| && Ring(c, base) == Ring(d, base)
    ensures forall blk: nat :: InJournal(base, blk) ==> c[blk] == d[blk]
  {
    forall blk: nat | InJournal(base, blk)
      ensures c[blk] == d[blk]
    {
      assert Ring(c, base)[blk - base] == Ring(d, base)[blk - base];
    }
  }

  lemma SameRingSameTxn(c: Disk, d: Disk, base: nat, start: nat, seqNo: nat)
    requires Fits(d, base) && |c| == |d| && Ring(c, base) == Ring(d, base)
    ensures TxnAt(c, base, start, seqNo) == TxnAt(d, base, start, seqNo)
  {
    hide Checksum, IsDesc, IsCommit;
    RingBlocks(c, d, base);
    if TxnAt(d, base, start, seqNo).Some? {
      TxnFrame(c, d, base, start, seqNo);
    } else if TxnAt(c, base, start, seqNo).Some? {
      TxnFrame(d, c, base, start, seqNo);
    }
  }

  /** Copying the slots of a clean transaction writes exactly its logged contents. */
  lemma {:induction false} CopiesClean(d: Disk, base: nat, start: nat, targets: seq<nat>)
    requires Fits(d, base) && start + |targets| < JOURNAL_BLOCKS
    requires forall k :: 0 <= k < |targets| ==> targets[k] < |d| && !InJournal(base, targets[k])
    ensures forall k :: 0 <= k < |targets| ==>
              Copies(d, base, start, targets)[k] == RawWrite(targets[k], d[base + start + 1 + k])
    decreases |targets|
  {
    if targets != [] {
      var m := |targets| - 1;
      CopiesClean(d, base, start, targets[..m]);
      ApplyFrame(d, Copies(d, base, start, targets[..m]), base + start + 1 + m);
    }
  }

  lemma ReplayCopies(d: Disk, base: nat, start: nat, seqNo: nat, t: Txn)
    requires Fits(d, base) && TxnAt(d, base, start, seqNo) == Some(t) && Clean(d, base, t)
    ensures GoodTargets(d, Targets(t)) == |t| && Copies(d, base, start, Targets(t)) == t
  {
    hide TxnAt, GoodTargets, Copies;
    FoundShape(d, base, start, seqNo, t);
    AllGood(d, Targets(t));
    CopiesClean(d, base, start, Targets(t));
  }

  lemma FoundShape(d: Disk, base: nat, start: nat, seqNo: nat, t: Txn)
    requires Fits(d, base) && TxnAt(d, base, start, seqNo) == Some(t)
    ensures start + 2 + |t| <= JOURNAL_BLOCKS
    ensures forall k :: 0 <= k < |t| ==> t[k].data == d[base + start + 1 + k]
  {
    hide Checksum, IsDesc, IsCommit, R32;
  }

  lemma AllGood(d: Disk, targets: seq<nat>)
    requires forall k :: 0 <= k < |targets| ==> targets[k] < |d|
    ensures GoodTargets(d, targets) == |targets|
  {
  }

  lemma CleanKeepsRing(d: Disk, base: nat, ws: seq<RawWrite>)
    requires Fits(d, base) && Clean(d, base, ws)
    ensures Ring(Apply(d, ws), base) == Ring(d, base)
  {
    forall blk: nat | InJournal(base, blk)
      ensures Apply(d, ws)[blk] == d[blk]
    {
      ApplyFrame(d, ws, blk);
    }
    SameRing(Apply(d, ws), d, base);
  }

  /** One round of recovery on a clean transaction: its contents are copied out, the ring stays. */
  lemma ReplayRound(d: Disk, base: nat, s0: nat, q0: nat, t: Txn)
    requires Fits(d, base) && TxnAt(d, base, s0, q0) == Some(t) && Clean(d, base, t)
    ensures var d1 := Apply(d, t);
      && Ring(d1, base) == Ring(d, base)
      && var rest := Replay(d1, base, Advance(s0, |t|), q0 + 1);
         Replay(d, base, s0, q0) == rest.(writes := t + rest.writes)
  {
    hide TxnAt, Ring, Apply, Copies, GoodTargets, Advance;
    ReplayCopies(d, base, s0, q0, t);
    assert Targets(t)[..|t|] == Targets(t);
    CleanKeepsRing(d, base, t);
  }

  /** Recovery applies the chain, transaction by transaction, and stops at its end. */
  lemma {:induction false} ReplayChain(d: Disk, base: nat, s0: nat, q0: nat, T: seq<Txn>, s1: nat, q1: nat)
    requires Fits(d, base) && Chain(d, base, s0, q0, T, s1, q1) && TxnAt(d, base, s1, q1) == None
    ensures Replay(d, base, s0, q0) == Recovery(AllWrites(T), s1, q1, true)
    decreases |T|
  {
    hide TxnAt, Apply, Ring;
    if T != [] {
      hide Replay, Clean;
      ReplayRound(d, base, s0, q0, T[0]);
      var d1, s := Apply(d, T[0]), Advance(s0, |T[0]|);
      RingBlocks(d1, d, base);
      ChainFrame(d1, d, base, s, q0 + 1, T[1..], s1, q1);
      SameRingSameTxn(d1, d, base, s1, q1);
      ReplayChain(d1, base, s, q0 + 1, T[1..], s1, q1);
    }
  }

  // ---- the invariant of a running system ----

  /** No slot of the ring holds a commit block numbered `seqNo` or later. */
  ghost predicate Quiet(d: Disk, base: nat, seqNo: nat)
    requires Fits(d, base)
  {
    forall blk: nat :: base < blk < base + JOURNAL_BLOCKS ==> !CommitFrom(d[blk], seqNo)
  }

  /** The blocks of the open transaction: descriptor slot, logged copies, commit slot. */
  predicate InOpen(j: Jbd, blk: nat) {
    j.base + j.start <= blk <= j.base + j.start + 1 + |j.pend|
  }

  /** The open transaction fits the ring, its entry k is logged at slot start+1+k, and no home
      block is pending twice or inside the journal. */
  predicate Layout(j: Jbd) {
    && (j.pend != [] ==> j.start + 1 + |j.pend| <= LAST_SLOT)
    && (forall k :: 0 <= k < |j.pend| ==> j.pend[k].pos == j.start + 1 + k && !InJournal(j.base, j.pend[k].blk))
    && (forall i, k :: 0 <= i < k < |j.pend| ==> j.pend[i].blk != j.pend[k].blk)
  }

  /** The journal superblock leads, through the backlog `T` of transactions that are already in
      their home blocks, to the slot and number of the open transaction. */
  ghost predicate Backlog(j: Jbd, d: Disk, T: seq<Txn>)
    requires Fits(d, j.base)
  {
    && R32(d[j.base], 0) == MAGIC
    && Chain(d, j.base, SuperStart(d[j.base]), SuperSeq(d[j.base]), T, j.start, j.seqNo)
    && InRange(d, AllWrites(T)) && Apply(d, AllWrites(T)) == d
  }

  /** The open transaction uses none of the backlog's blocks. */
  ghost predicate OpenIsFree(j: Jbd, d: Disk, T: seq<Txn>)
    requires Fits(d, j.base)
  {
    j.pend != [] ==> forall blk: nat :: InOpen(j, blk) ==> !InFoot(blk, j.base, SuperStart(d[j.base]), T)
  }

  ghost predicate Inv(s: Sys, T: seq<Txn>) {
    && WellSized(s)
    && s.j.seqNo < U32_LIMIT
    && Layout(s.j)
    && Backlog(s.j, s.d, T)
    && OpenIsFree(s.j, s.d, T)
    && Quiet(s.d, s.j.base, s.j.seqNo)
  }

  /** What a mount of disk `c` will do: replay `T` and end at slot `s1` with number `q1`. */
  ghost predicate Recovers(c: Disk, base: nat, T: seq<Txn>, s1: nat, q1: nat)
    requires Fits(c, base)
  {
    && Chain(c, base, SuperStart(c[base]), SuperSeq(c[base]), T, s1, q1)
    && TxnAt(c, base, s1, q1) == None
  }

  lemma QuietMeansNoTxn(d: Disk, base: nat, start: nat, seqNo: nat)
    requires Fits(d, base) && Quiet(d, base, seqNo)
    ensures TxnAt(d, base, start, seqNo) == None
  {
    hide Checksum, TxnWrites;
    if start + 2 <= JOURNAL_BLOCKS {
      var n := R32(d[base + start], 12);
      if start + 2 + n <= JOURNAL_BLOCKS {
        assert !CommitFrom(d[base + start + 1 + n], seqNo);
      }
    }
  }

  lemma MountRecovers(c: Disk, base: nat, T: seq<Txn>, s1: nat, q1: nat)
    requires Fits(c, base) && Recovers(c, base, T, s1, q1)
    ensures Mount(c, base) == Recovery(AllWrites(T), s1, q1, true)
    ensures Clean(c, base, AllWrites(T)) && InRange(c, AllWrites(T))
    ensures Mounted(c, base) == Sys(Jbd(base, s1, q1, []), Apply(c, AllWrites(T)))
  {
    hide TxnAt, Replay;
    ReplayChain(c, base, SuperStart(c[base]), SuperSeq(c[base]), T, s1, q1);
    ChainClean(c, base, SuperStart(c[base]), SuperSeq(c[base]), T, s1, q1);
  }

  /** The home blocks: the disk with the journal area masked out. */
  function Home(d: Disk, base: nat): (h: Disk)
    ensures |h| == |d|
  {
    seq(|d|, i requires 0 <= i < |d| => if InJournal(base, i) then ZERO_BLOCK else d[i])
  }

  /** What every read of a home block returns now. */
  function View(s: Sys): (h: Disk)
    requires WellSized(s)
    ensures |h| == |s.d|
  {
    seq(|s.d|, i requires 0 <= i < |s.d| => if InJournal(s.j.base, i) then ZERO_BLOCK else Read(s, i))
  }

  /** A recovered system is as it must be to run on, with the replayed chain as its backlog. */
  lemma RecoveredInv(c: Disk, base: nat, T: seq<Txn>, s1: nat, q1: nat)
    requires Fits(c, base) && R32(c[base], 0) == MAGIC && Recovers(c, base, T, s1, q1)
    requires 1 <= s1 <= LAST_SLOT && q1 < U32_LIMIT && Quiet(c, base, q1)
    ensures Inv(Mounted(c, base), T)
  {
    hide TxnAt, Mount, CommitFrom, Clean;
    MountRecovers(c, base, T, s1, q1);
    var s := Mounted(c, base);
    CleanKeepsRing(c, base, AllWrites(T));
    RingBlocks(s.d, c, base);
    ChainFrame(s.d, c, base, SuperStart(c[base]), SuperSeq(c[base]), T, s1, q1);
    ApplyIdempotent(c, AllWrites(T));
  }

  /** Power fails while only slots of the open transaction were touched and nothing is sealed:
      recovery finds the home blocks as they were. */
  lemma RecoverUnsealed(s: Sys, T: seq<Txn>, c: Disk, lo: nat, hi: nat)
    requires Inv(s, T) && |c| == |s.d| && s.j.base < lo && hi < s.j.base + JOURNAL_BLOCKS
    requires forall blk: nat :: blk < |c| && !(lo <= blk <= hi) ==> c[blk] == s.d[blk]
    requires forall blk: nat :: lo <= blk <= hi ==> !InFoot(blk, s.j.base, SuperStart(s.d[s.j.base]), T)
    requires Quiet(c, s.j.base, s.j.seqNo)
    ensures Recovers(c, s.j.base, T, s.j.start, s.j.seqNo)
    ensures Inv(Mounted(c, s.j.base), T)
    ensures Home(Mounted(c, s.j.base).d, s.j.base) == Home(s.d, s.j.base)
  {
    hide TxnAt, Mount, CommitFrom, Clean;
    var base := s.j.base;
    ChainFrame(c, s.d, base, SuperStart(s.d[base]), SuperSeq(s.d[base]), T, s.j.start, s.j.seqNo);
    QuietMeansNoTxn(c, base, s.j.start, s.j.seqNo);
    RecoveredInv(c, base, T, s.j.start, s.j.seqNo);
    MountRecovers(c, base, T, s.j.start, s.j.seqNo);
    var r := Mounted(c, base).d;
    forall blk: nat | blk < |c| && !InJournal(base, blk)
      ensures r[blk] == s.d[blk]
    {
      ApplyDetermined(c, s.d, AllWrites(T), blk);
    }
  }

  // ---- the commit, write by write ----

  /** The open transaction as recovery will see it once it is sealed. */
  function OpenTxn(s: Sys): (t: Txn)
    requires WellSized(s) && Layout(s.j)
    ensures |t| == |s.j.pend|
    ensures forall k :: 0 <= k < |t| ==> t[k] == RawWrite(s.j.pend[k].blk, s.d[s.j.base + s.j.start + 1 + k])
  {
    seq(|s.j.pend|, k requires 0 <= k < |s.j.pend| => RawWrite(s.j.pend[k].blk, s.d[s.j.base + s.j.start + 1 + k]))
  }

  predicate IsHome(j: Jbd, blk: nat) {
    exists k :: 0 <= k < |j.pend| && j.pend[k].blk == blk
  }

  /** The pending entry of a block is unique, so every search finds it. */
  lemma FindHome(j: Jbd, k: nat)
    requires Layout(j) && k < |j.pend|
    ensures FindPend(j.pend, j.pend[k].blk) == Some(k)
  {
  }

  lemma OpenTxnClean(s: Sys)
    requires WellSized(s) && Layout(s.j)
    ensures Clean(s.d, s.j.base, OpenTxn(s)) && InRange(s.d, OpenTxn(s))
  {
  }

  /** The disk holds the sealed open transaction. */
  predicate SealedAt(s: Sys, c: Disk)
    requires WellSized(s) && Layout(s.j) && s.j.pend != [] && s.j.seqNo < U32_LIMIT && |c| == |s.d|
  {
    var j := s.j;
    var desc := EncodeDesc(j.seqNo, Blks(j.pend));
    var commit := c[j.base + j.start + 1 + |j.pend|];
    && c[j.base + j.start] == desc
    && IsCommit(commit, j.seqNo) && R32(commit, 12) == Checksum(desc, Logged(j, s.d))
    && (forall blk: nat :: j.base + j.start + 1 <= blk < j.base + j.start + 1 + |j.pend| ==> c[blk] == s.d[blk])
  }

  lemma SealedEntries(s: Sys, c: Disk)
    requires WellSized(s) && Layout(s.j) && s.j.pend != [] && s.j.seqNo < U32_LIMIT && |c| == |s.d|
    requires SealedAt(s, c)
    ensures TxnWrites(c, s.j.base, s.j.start, |s.j.pend|) == OpenTxn(s)
  {
    hide Checksum, EncodeDesc, IsCommit, IsDesc, R32;
    var j := s.j;
    DescRoundTrip(j.seqNo, Blks(j.pend));
    var t := TxnWrites(c, j.base, j.start, |j.pend|);
    var desc := EncodeDesc(j.seqNo, Blks(j.pend));
    assert c[j.base + j.start] == desc;
    forall k | 0 <= k < |j.pend|
      ensures t[k] == OpenTxn(s)[k]
    {
      assert R32(desc, 16 + 4 * k) == Blks(j.pend)[k];
      assert c[j.base + j.start + 1 + k] == s.d[j.base + j.start + 1 + k];
    }
  }

  /** Once the descriptor, the logged copies and the commit block are in place, recovery finds
      the open transaction. */
  lemma SealedTxn(s: Sys, c: Disk)
    requires WellSized(s) && Layout(s.j) && s.j.pend != [] && s.j.seqNo < U32_LIMIT && |c| == |s.d|
    requires SealedAt(s, c)
    ensures TxnAt(c, s.j.base, s.j.start, s.j.seqNo) == Some(OpenTxn(s))
  {
    hide Checksum, EncodeDesc, IsCommit, IsDesc, R32, TxnWrites, OpenTxn;
    var j := s.j;
    var n := |j.pend|;
    DescRoundTrip(j.seqNo, Blks(j.pend));
    SealedEntries(s, c);
    assert c[j.base + j.start] == EncodeDesc(j.seqNo, Blks(j.pend));
    assert c[j.base + j.start + 1..j.base + j.start + 1 + n] == Logged(j, s.d);
  }

  /** Power fails after the seal: recovery completes the transaction, wherever the home
      writes had got to. */
  lemma RecoverSealed(s: Sys, T: seq<Txn>, c: Disk)
    requires Inv(s, T) && s.j.pend != [] && s.j.seqNo + 1 < U32_LIMIT && |c| == |s.d|
    requires forall blk: nat :: blk < |c| && !InOpen(s.j, blk) && !IsHome(s.j, blk) ==> c[blk] == s.d[blk]
    requires TxnAt(c, s.j.base, s.j.start, s.j.seqNo) == Some(OpenTxn(s))
    requires Quiet(c, s.j.base, s.j.seqNo + 1)
    ensures Recovers(c, s.j.base, T + [OpenTxn(s)], Advance(s.j.start, |s.j.pend|), s.j.seqNo + 1)
    ensures Inv(Mounted(c, s.j.base), T + [OpenTxn(s)])
    ensures Home(Mounted(c, s.j.base).d, s.j.base) == View(s)
  {
    hide TxnAt, Mount, CommitFrom, Clean, Chain, Quiet, Recovers, Backlog, OpenIsFree, Advance, AllWrites, Home, View,
         OpenTxn, R32, Layout, Apply;
    SealedRecovers(s, T, c);
    var base, t := s.j.base, OpenTxn(s);
    var s1, q1 := Advance(s.j.start, |t|), s.j.seqNo + 1;
    RecoveredInv(c, base, T + [t], s1, q1);
    MountRecovers(c, base, T + [t], s1, q1);
    SealedContents(s, T, c);
  }

  /** The sealed transaction is one more behind the backlog, and the last one. */
  lemma SealedRecovers(s: Sys, T: seq<Txn>, c: Disk)
    requires Inv(s, T) && s.j.pend != [] && s.j.seqNo + 1 < U32_LIMIT && |c| == |s.d|
    requires forall blk: nat :: blk < |c| && !InOpen(s.j, blk) && !IsHome(s.j, blk) ==> c[blk] == s.d[blk]
    requires TxnAt(c, s.j.base, s.j.start, s.j.seqNo) == Some(OpenTxn(s))
    requires Quiet(c, s.j.base, s.j.seqNo + 1)
    ensures |OpenTxn(s)| == |s.j.pend| && Fits(c, s.j.base) && R32(c[s.j.base], 0) == MAGIC
    ensures Recovers(c, s.j.base, T + [OpenTxn(s)], Advance(s.j.start, |s.j.pend|), s.j.seqNo + 1)
    ensures 1 <= Advance(s.j.start, |s.j.pend|) <= LAST_SLOT
    ensures AllWrites(T + [OpenTxn(s)]) == AllWrites(T) + OpenTxn(s)
  {
    hide TxnAt, CommitFrom, Clean, R32;
    var j, base, t := s.j, s.j.base, OpenTxn(s);
    var s0, q0 := SuperStart(s.d[base]), SuperSeq(s.d[base]);
    OpenTxnClean(s);
    CleanFrame(c, s.d, base, t);
    hide SuperStart, SuperSeq, OpenTxn;
    ChainFrame(c, s.d, base, s0, q0, T, j.start, j.seqNo);
    hide Chain, Quiet, AllWrites;
    ChainSnoc(c, base, s0, q0, T, j.start, j.seqNo, t);
    QuietMeansNoTxn(c, base, Advance(j.start, |t|), j.seqNo + 1);
  }

  lemma SealedContents(s: Sys, T: seq<Txn>, c: Disk)
    requires Inv(s, T) && s.j.pend != [] && |c| == |s.d|
    requires forall blk: nat :: blk < |c| && !InOpen(s.j, blk) && !IsHome(s.j, blk) ==> c[blk] == s.d[blk]
    requires InRange(c, AllWrites(T) + OpenTxn(s))
    ensures Home(Apply(c, AllWrites(T) + OpenTxn(s)), s.j.base) == View(s)
  {
    hide Chain, AllWrites, OpenIsFree, Quiet, Apply;
    var W := AllWrites(T);
    var r := Apply(c, W + OpenTxn(s));
    forall blk: nat | blk < |c| && !InJournal(s.j.base, blk)
      ensures r[blk] == Read(s, blk)
    {
      if IsHome(s.j, blk) {
        SealedHome(s, W, c, blk);
      } else {
        SealedOther(s, W, c, blk);
      }
    }
  }

  lemma SealedHome(s: Sys, W: seq<RawWrite>, c: Disk, blk: nat)
    requires WellSized(s) && Layout(s.j) && |c| == |s.d| && IsHome(s.j, blk)
    requires InRange(c, W + OpenTxn(s))
    ensures blk < |c| && Apply(c, W + OpenTxn(s))[blk] == Read(s, blk)
  {
    hide OpenTxn, FindPend, Apply, AllWrites;
    var k :| 0 <= k < |s.j.pend| && s.j.pend[k].blk == blk;
    FindHome(s.j, k);
    var ws := W + OpenTxn(s);
    assert ws[|W| + k] == OpenTxn(s)[k];
    forall i | |W| + k < i < |ws|
      ensures ws[i].blk != ws[|W| + k].blk
    {
      assert ws[i] == OpenTxn(s)[i - |W|];
    }
    ApplyHit(c, ws, |W| + k);
  }

  lemma SealedOther(s: Sys, W: seq<RawWrite>, c: Disk, blk: nat)
    requires WellSized(s) && Layout(s.j) && |c| == |s.d| && blk < |c| && !IsHome(s.j, blk)
    requires InRange(c, W + OpenTxn(s)) && c[blk] == s.d[blk]
    requires InRange(s.d, W) && Apply(s.d, W) == s.d
    ensures Apply(c, W + OpenTxn(s))[blk] == Read(s, blk)
  {
    hide Apply, OpenTxn;
    assert InRange(c, OpenTxn(s)) by {
      OpenTxnClean(s);
    }
    ApplyConcat(c, W, OpenTxn(s));
    ApplyFrame(Apply(c, W), OpenTxn(s), blk);
    ApplyDetermined(c, s.d, W, blk);
  }

  /** Mounting `c` succeeds, leaves a system that can run on, and finds home contents `h`. */
  ghost predicate RecoversTo(c: Disk, base: nat, h: Disk) {
    && Fits(c, base)
    && (exists T: seq<Txn>, s1: nat, q1: nat :: Recovers(c, base, T, s1, q1) && Inv(Mounted(c, base), T))
    && Home(Mounted(c, base).d, base) == h
  }

  function DescOf(j: Jbd): Block
    requires |j.pend| <= MAX_PEND && j.seqNo < U32_LIMIT && IsU32s(Blks(j.pend))
  {
    EncodeDesc(j.seqNo, Blks(j.pend))
  }

  function Described(s: Sys): (d: Disk)
    requires WellSized(s) && s.j.pend != [] && s.j.seqNo < U32_LIMIT
    ensures |d| == |s.d|
  {
    s.d[s.j.base + s.j.start := DescOf(s.j)]
  }

  function SealOf(s: Sys): Block
    requires WellSized(s) && s.j.pend != [] && s.j.seqNo < U32_LIMIT
  {
    EncodeCommit(s.j.seqNo, Checksum(DescOf(s.j), Logged(s.j, s.d)), |s.j.pend|)
  }

  function SealedDisk(s: Sys): (d: Disk)
    requires WellSized(s) && s.j.pend != [] && s.j.seqNo < U32_LIMIT
    ensures |d| == |s.d|
  {
    Described(s)[s.j.base + s.j.start + 1 + |s.j.pend| := SealOf(s)]
  }

  lemma SealApplied(s: Sys)
    requires WellSized(s) && s.j.pend != [] && s.j.seqNo < U32_LIMIT
    ensures SealWrites(s.j, s.d) == [RawWrite(s.j.base + s.j.start, DescOf(s.j)),
                                     RawWrite(s.j.base + s.j.start + 1 + |s.j.pend|, SealOf(s))]
    ensures Apply(s.d, SealWrites(s.j, s.d)) == SealedDisk(s)
  {
    hide EncodeDesc, EncodeCommit, Checksum;
    var ws := SealWrites(s.j, s.d);
    assert ws[..1] == [ws[0]];
    assert ws[..1][..0] == [];
    assert Apply(s.d, ws[..1]) == Described(s);
  }

  lemma HomeCopiesShape(s: Sys)
    requires WellSized(s) && Layout(s.j) && s.j.pend != [] && s.j.seqNo < U32_LIMIT
    ensures HomeCopies(s.j, SealedDisk(s)) == OpenTxn(s)
  {
    hide EncodeDesc, EncodeCommit, Checksum, R32;
    var j, d1 := s.j, SealedDisk(s);
    var homes := HomeCopies(j, d1);
    CopiesClean(d1, j.base, j.start, Blks(j.pend));
    forall k | 0 <= k < |j.pend|
      ensures homes[k] == OpenTxn(s)[k]
    {
      assert d1[j.base + j.start + 1 + k] == s.d[j.base + j.start + 1 + k];
    }
  }

  /** What a commit writes: descriptor, commit block, the logged contents to their home blocks,
      journal superblock. */
  lemma CommitShape(s: Sys)
    requires WellSized(s) && Layout(s.j) && s.j.pend != [] && s.j.seqNo + 1 < U32_LIMIT
    ensures CommitWrites(s.j, s.d) == SealWrites(s.j, s.d) + OpenTxn(s) + [SuperWrite(s.j, s.d)]
  {
    hide EncodeDesc, EncodeCommit, Checksum, EncodeSuper, SealWrites, R32, SealedDisk, OpenTxn, HomeCopies;
    SealApplied(s);
    HomeCopiesShape(s);
    OpenTxnClean(s);
    SealedSuper(s);
  }

  lemma SealedSuper(s: Sys)
    requires WellSized(s) && Layout(s.j) && s.j.pend != [] && s.j.seqNo < U32_LIMIT
    ensures HomesDone(s)[s.j.base] == s.d[s.j.base]
  {
    hide EncodeDesc, EncodeCommit, Checksum, EncodeSuper;
    OpenTxnClean(s);
    ApplyFrame(SealedDisk(s), OpenTxn(s), s.j.base);
  }

  lemma QuietStep(c: Disk, d: Disk, base: nat, q: nat, r: nat)
    requires Fits(d, base) && |c| == |d| && Quiet(d, base, q) && q <= r
    requires forall blk: nat :: base < blk < base + JOURNAL_BLOCKS ==> c[blk] == d[blk] || !CommitFrom(c[blk], r)
    ensures Quiet(c, base, r)
  {
    forall blk: nat | base < blk < base + JOURNAL_BLOCKS
      ensures !CommitFrom(c[blk], r)
    {
      assert !CommitFrom(d[blk], q);
    }
  }

  lemma TornDescIsNoCommit(s: Sys, was: Block, t: nat)
    requires WellSized(s) && s.j.seqNo < U32_LIMIT && t <= SECTORS
    ensures CommitFrom(Torn(was, DescOf(s.j), t), s.j.seqNo) ==> CommitFrom(was, s.j.seqNo)
    ensures t > 0 ==> !CommitFrom(Torn(was, DescOf(s.j), t), s.j.seqNo)
  {
    hide EncodeDesc;
    DescRoundTrip(s.j.seqNo, Blks(s.j.pend));
    TornField(was, DescOf(s.j), t, 0);
    TornField(was, DescOf(s.j), t, 4);
    TornField(was, DescOf(s.j), t, 8);
  }

  /** Power fails while the descriptor is written: the old contents survive. */
  lemma CrashInDescriptor(s: Sys, T: seq<Txn>, t: nat)
    requires Inv(s, T) && s.j.pend != [] && t <= SECTORS
    ensures var blk := s.j.base + s.j.start;
            RecoversTo(s.d[blk := Torn(s.d[blk], DescOf(s.j), t)], s.j.base, Home(s.d, s.j.base))
  {
    hide EncodeDesc, Chain, CommitFrom, InFoot, Mount, Home;
    var base, at := s.j.base, s.j.base + s.j.start;
    var c := s.d[at := Torn(s.d[at], DescOf(s.j), t)];
    TornDescIsNoCommit(s, s.d[at], t);
    assert Quiet(c, base, s.j.seqNo) by {
      assert !CommitFrom(s.d[at], s.j.seqNo);
      QuietStep(c, s.d, base, s.j.seqNo, s.j.seqNo);
    }
    RecoverUnsealed(s, T, c, at, at + 1 + |s.j.pend|);
  }

  lemma TornSealIsCommit(s: Sys, was: Block, t: nat)
    requires WellSized(s) && s.j.pend != [] && s.j.seqNo < U32_LIMIT && 0 < t <= SECTORS
    ensures var b := Torn(was, SealOf(s), t);
      && IsCommit(b, s.j.seqNo) && R32(b, 12) == Checksum(DescOf(s.j), Logged(s.j, s.d))
      && !CommitFrom(b, s.j.seqNo + 1)
  {
    hide EncodeDesc, Checksum, EncodeCommit;
    CommitRoundTrip(s.j.seqNo, Checksum(DescOf(s.j), Logged(s.j, s.d)), |s.j.pend|);
    TornField(was, SealOf(s), t, 0);
    TornField(was, SealOf(s), t, 4);
    TornField(was, SealOf(s), t, 8);
    TornField(was, SealOf(s), t, 12);
  }

  /** Descriptor written, `t` sectors of the commit block written. */
  function SealTorn(s: Sys, t: nat): (d: Disk)
    requires WellSized(s) && s.j.pend != [] && s.j.seqNo < U32_LIMIT && t <= SECTORS
    ensures |d| == |s.d|
  {
    var at := s.j.base + s.j.start + 1 + |s.j.pend|;
    Described(s)[at := Torn(s.d[at], SealOf(s), t)]
  }

  /** The disk differs from the sealed one in home blocks only. */
  predicate HomesApart(s: Sys, c: Disk, t: nat)
    requires WellSized(s) && s.j.pend != [] && s.j.seqNo < U32_LIMIT && t <= SECTORS
  {
    |c| == |s.d| && forall blk: nat :: blk < |c| && !IsHome(s.j, blk) ==> c[blk] == SealTorn(s, t)[blk]
  }

  lemma QuietAfterSeal(s: Sys, T: seq<Txn>, t: nat, c: Disk)
    requires Inv(s, T) && s.j.pend != [] && 0 < t <= SECTORS && HomesApart(s, c, t)
    ensures Quiet(c, s.j.base, s.j.seqNo + 1)
  {
    hide CommitFrom, SealTorn, Backlog, OpenIsFree;
    var j, base := s.j, s.j.base;
    forall blk: nat | base < blk < base + JOURNAL_BLOCKS
      ensures c[blk] == s.d[blk] || !CommitFrom(c[blk], j.seqNo + 1)
    {
      AfterSealBlock(s, t, blk);
      assert !IsHome(j, blk);
    }
    QuietStep(c, s.d, base, j.seqNo, j.seqNo + 1);
  }

  lemma AfterSealBlock(s: Sys, t: nat, blk: nat)
    requires WellSized(s) && Layout(s.j) && s.j.pend != [] && s.j.seqNo < U32_LIMIT && 0 < t <= SECTORS && blk < |s.d|
    ensures SealTorn(s, t)[blk] == s.d[blk] || !CommitFrom(SealTorn(s, t)[blk], s.j.seqNo + 1)
  {
    hide EncodeDesc, EncodeCommit, Checksum, CommitFrom, IsCommit, R32;
    var j, base := s.j, s.j.base;
    if blk == base + j.start + 1 + |j.pend| {
      TornSealIsCommit(s, s.d[blk], t);
    } else if blk == base + j.start {
      TornEnds(s.d[blk], DescOf(j));
      TornDescIsNoCommit(s, s.d[blk], SECTORS);
      NotCommitFromNext(DescOf(j), j.seqNo);
    }
  }

  lemma SealedAfterSeal(s: Sys, t: nat, c: Disk)
    requires WellSized(s) && Layout(s.j) && s.j.pend != [] && s.j.seqNo < U32_LIMIT
    requires 0 < t <= SECTORS && HomesApart(s, c, t)
    ensures SealedAt(s, c)
  {
    hide EncodeDesc, EncodeCommit, Checksum, CommitFrom, IsCommit, R32;
    var j, base := s.j, s.j.base;
    TornSealIsCommit(s, s.d[base + j.start + 1 + |j.pend|], t);
    assert !IsHome(j, base + j.start) && !IsHome(j, base + j.start + 1 + |j.pend|);
    forall blk: nat | base + j.start + 1 <= blk < base + j.start + 1 + |j.pend|
      ensures c[blk] == s.d[blk]
    {
      assert !IsHome(j, blk);
    }
  }

  /** Once any sector of the commit block is down, recovery completes the transaction. */
  lemma CrashAfterSeal(s: Sys, T: seq<Txn>, t: nat, c: Disk)
    requires Inv(s, T) && s.j.pend != [] && s.j.seqNo + 1 < U32_LIMIT && 0 < t <= SECTORS
    requires HomesApart(s, c, t)
    ensures RecoversTo(c, s.j.base, View(s))
  {
    hide EncodeDesc, EncodeCommit, Checksum, Chain, CommitFrom, IsCommit, InFoot, Mount, View, R32, SealedAt, Layout,
         TxnAt, Quiet, Recovers, Home, OpenTxn, Backlog, OpenIsFree, Torn;
    QuietAfterSeal(s, T, t, c);
    SealedAfterSeal(s, t, c);
    SealedTxn(s, c);
    RecoverSealed(s, T, c);
  }

  lemma NotCommitFromNext(b: Block, q: nat)
    requires !CommitFrom(b, q)
    ensures !CommitFrom(b, q + 1)
  {
  }

  /** Power fails while the commit block is written. */
  lemma CrashInSeal(s: Sys, T: seq<Txn>, t: nat)
    requires Inv(s, T) && s.j.pend != [] && s.j.seqNo + 1 < U32_LIMIT && t <= SECTORS
    ensures RecoversTo(SealTorn(s, t), s.j.base, if t == 0 then Home(s.d, s.j.base) else View(s))
  {
    hide EncodeDesc, EncodeCommit, Checksum, Backlog, OpenIsFree, Quiet, RecoversTo, View, Home;
    if t == 0 {
      var at := s.j.base + s.j.start;
      TornEnds(s.d[at], DescOf(s.j));
      TornEnds(s.d[at + 1 + |s.j.pend|], SealOf(s));
      CrashInDescriptor(s, T, SECTORS);
      assert SealTorn(s, 0) == s.d[at := Torn(s.d[at], DescOf(s.j), SECTORS)];
    } else {
      CrashAfterSeal(s, T, t, SealTorn(s, t));
    }
  }

  /** Power fails while the home blocks are written. */
  lemma CrashInHomes(s: Sys, T: seq<Txn>, k: nat, t: nat)
    requires Inv(s, T) && s.j.pend != [] && s.j.seqNo + 1 < U32_LIMIT && t <= SECTORS && k <= |s.j.pend|
    ensures InRange(SealedDisk(s), OpenTxn(s))
    ensures RecoversTo(Crash(SealedDisk(s), OpenTxn(s), k, t), s.j.base, View(s))
  {
    hide EncodeDesc, EncodeCommit, Checksum, RecoversTo, View, Home, Backlog, OpenIsFree, Quiet;
    OpenTxnClean(s);
    var c := Crash(SealedDisk(s), OpenTxn(s), k, t);
    TornEnds(s.d[s.j.base + s.j.start + 1 + |s.j.pend|], SealOf(s));
    assert SealTorn(s, SECTORS) == SealedDisk(s);
    forall blk: nat | blk < |c| && !IsHome(s.j, blk)
      ensures c[blk] == SealedDisk(s)[blk]
    {
      CrashFrame(SealedDisk(s), OpenTxn(s), k, t, blk);
    }
    CrashAfterSeal(s, T, SECTORS, c);
  }

  /** Sealed, and all logged contents copied home. */
  function HomesDone(s: Sys): (d: Disk)
    requires WellSized(s) && Layout(s.j) && s.j.pend != [] && s.j.seqNo < U32_LIMIT
    ensures |d| == |s.d|
  {
    OpenTxnClean(s);
    Apply(SealedDisk(s), OpenTxn(s))
  }

  /** The disk after a whole commit. */
  function CommittedDisk(s: Sys): (d: Disk)
    requires WellSized(s) && Layout(s.j) && s.j.pend != [] && s.j.seqNo + 1 < U32_LIMIT
    ensures |d| == |s.d|
  {
    HomesDone(s)[s.j.base := SuperWrite(s.j, s.d).data]
  }

  lemma CommittedHomes(s: Sys)
    requires WellSized(s) && Layout(s.j) && s.j.pend != [] && s.j.seqNo + 1 < U32_LIMIT
    ensures Home(CommittedDisk(s), s.j.base) == View(s)
  {
    hide EncodeDesc, EncodeCommit, EncodeSuper, Checksum, FindPend, Apply;
    var d1, t := SealedDisk(s), OpenTxn(s);
    OpenTxnClean(s);
    assert [] + t == t;
    assert Apply(s.d, []) == s.d by {
      ApplyNothing(s.d);
    }
    forall blk: nat | blk < |s.d| && !InJournal(s.j.base, blk)
      ensures CommittedDisk(s)[blk] == Read(s, blk)
    {
      if IsHome(s.j, blk) {
        SealedHome(s, [], d1, blk);
      } else {
        SealedOther(s, [], d1, blk);
      }
    }
  }

  /** A finished commit leaves nothing pending, an empty backlog, and every read unchanged. */
  lemma CommitDone(s: Sys, T: seq<Txn>)
    requires Inv(s, T) && s.j.pend != [] && s.j.seqNo + 1 < U32_LIMIT
    ensures Inv(Sys(CommitJbd(s.j), CommittedDisk(s)), [])
    ensures Home(CommittedDisk(s), s.j.base) == View(s)
  {
    hide EncodeDesc, EncodeCommit, EncodeSuper, Checksum, Chain, CommitFrom, IsCommit, InFoot, View, Home, R32;
    var base, d3 := s.j.base, CommittedDisk(s);
    var d2 := HomesDone(s);
    CommittedHomes(s);
    HomesDoneApart(s);
    hide HomesApart, HomesDone, Layout, Described, SealedDisk;
    QuietAfterSeal(s, T, SECTORS, d2);
    QuietStep(d3, d2, base, s.j.seqNo + 1, s.j.seqNo + 1);
    SuperRoundTrip(s.d[base], s.j.seqNo + 1, Advance(s.j.start, |s.j.pend|));
    EmptyChain(d3, base, Advance(s.j.start, |s.j.pend|), s.j.seqNo + 1);
    ApplyNothing(d3);
  }

  lemma HomesDoneApart(s: Sys)
    requires WellSized(s) && Layout(s.j) && s.j.pend != [] && s.j.seqNo < U32_LIMIT
    ensures HomesApart(s, HomesDone(s), SECTORS)
  {
    hide EncodeDesc, EncodeCommit, Checksum;
    OpenTxnClean(s);
    TornEnds(s.d[s.j.base + s.j.start + 1 + |s.j.pend|], SealOf(s));
    forall blk: nat | blk < |s.d| && !IsHome(s.j, blk)
      ensures HomesDone(s)[blk] == SealTorn(s, SECTORS)[blk]
    {
      ApplyFrame(SealedDisk(s), OpenTxn(s), blk);
    }
  }

  lemma EmptyChain(d: Disk, base: nat, s0: nat, q0: nat)
    requires Fits(d, base)
    ensures Chain(d, base, s0, q0, [], s0, q0)
  {
  }

  /** A system with nothing pending recovers to its own home contents. */
  lemma RestRecovers(s: Sys, T: seq<Txn>)
    requires Inv(s, T)
    ensures RecoversTo(s.d, s.j.base, Home(s.d, s.j.base))
  {
    hide Chain, CommitFrom, InFoot, Mount, Home;
    RecoverUnsealed(s, T, s.d, s.j.base + 2, s.j.base + 1);
  }

  /** Crash atomicity of a commit: until the first sector of the commit block is written the old
      home contents are recovered, from then on the new ones, wherever power fails. */
  lemma CrashInCommit(s: Sys, T: seq<Txn>, k: nat, t: nat)
    requires Inv(s, T) && s.j.seqNo + 1 < U32_LIMIT
    requires k <= |CommitWrites(s.j, s.d)| && t <= SECTORS
    ensures RecoversTo(Crash(s.d, CommitWrites(s.j, s.d), k, t), s.j.base,
              if s.j.pend == [] || k == 0 || (k == 1 && t == 0) then Home(s.d, s.j.base) else View(s))
  {
    hide EncodeDesc, EncodeCommit, EncodeSuper, Checksum, Backlog, OpenIsFree, Quiet, RecoversTo, View, Home,
         CommitWrites, SealWrites, SealedDisk;
    if s.j.pend == [] {
      NothingToCommit(s);
      ApplyNothing(s.d);
      RestRecovers(s, T);
    } else {
      CommitCrashCases(s, k, t);
      if k < 2 {
        CrashSealParts(s, T, k, t);
      } else if k - 2 < |s.j.pend| {
        CrashInHomes(s, T, k - 2, t);
      } else {
        CrashInSuper(s, T, k - 2 - |s.j.pend|, t);
      }
    }
  }

  /** The three stretches of a commit in which power can fail. */
  lemma CommitCrashCases(s: Sys, k: nat, t: nat)
    requires WellSized(s) && Layout(s.j) && s.j.pend != [] && s.j.seqNo + 1 < U32_LIMIT
    requires k <= |CommitWrites(s.j, s.d)| && t <= SECTORS
    ensures |CommitWrites(s.j, s.d)| == |s.j.pend| + 3 && InRange(SealedDisk(s), OpenTxn(s))
    ensures Crash(s.d, CommitWrites(s.j, s.d), k, t) ==
            if k < 2 then Crash(s.d, SealWrites(s.j, s.d), k, t)
            else if k - 2 < |s.j.pend| then Crash(SealedDisk(s), OpenTxn(s), k - 2, t)
            else SuperCrash(s, k - 2 - |s.j.pend|, t)
  {
    hide EncodeDesc, EncodeCommit, EncodeSuper, Checksum, CommitWrites, SealWrites, SealedDisk, Crash, Layout;
    CommitShape(s);
    SealApplied(s);
    OpenTxnClean(s);
    var d, seals, homes, super := s.d, SealWrites(s.j, s.d), OpenTxn(s), [SuperWrite(s.j, s.d)];
    assert CommitWrites(s.j, d) == seals + (homes + super);
    hide OpenTxn, SuperWrite, WellSized;
    CrashConcat(d, seals, homes + super, k, t);
    if k >= 2 {
      CrashConcat(SealedDisk(s), homes, super, k - 2, t);
    }
  }

  /** The disk when power fails around the superblock write. */
  function SuperCrash(s: Sys, k: nat, t: nat): (c: Disk)
    requires WellSized(s) && Layout(s.j) && s.j.pend != [] && s.j.seqNo + 1 < U32_LIMIT && k <= 1 && t <= SECTORS
  {
    Crash(HomesDone(s), [SuperWrite(s.j, s.d)], k, t)
  }

  lemma NothingToCommit(s: Sys)
    requires WellSized(s) && s.j.seqNo + 1 < U32_LIMIT && s.j.pend == []
    ensures CommitWrites(s.j, s.d) == []
  {
  }

  lemma CrashSealParts(s: Sys, T: seq<Txn>, k: nat, t: nat)
    requires Inv(s, T) && s.j.pend != [] && s.j.seqNo + 1 < U32_LIMIT && k < 2 && t <= SECTORS
    ensures RecoversTo(Crash(s.d, SealWrites(s.j, s.d), k, t), s.j.base,
              if k == 0 || t == 0 then Home(s.d, s.j.base) else View(s))
  {
    hide EncodeDesc, EncodeCommit, EncodeSuper, Checksum, Backlog, OpenIsFree, Quiet, RecoversTo, View, Home;
    SealApplied(s);
    var ws := SealWrites(s.j, s.d);
    if k == 0 {
      assert ws[..0] == [];
      CrashInDescriptor(s, T, t);
    } else {
      assert ws[..1] == [ws[0]] && ws[..1][..0] == [];
      assert Apply(s.d, ws[..1]) == Described(s);
      assert Crash(s.d, ws, 1, t) == SealTorn(s, t);
      CrashInSeal(s, T, t);
    }
  }

  lemma CrashInSuper(s: Sys, T: seq<Txn>, k: nat, t: nat)
    requires Inv(s, T) && s.j.pend != [] && s.j.seqNo + 1 < U32_LIMIT && k <= 1 && t <= SECTORS
    ensures RecoversTo(SuperCrash(s, k, t), s.j.base, View(s))
  {
    hide EncodeDesc, EncodeCommit, EncodeSuper, Checksum, Backlog, OpenIsFree, Quiet, RecoversTo, View, Home,
         HomesDone;
    var d2, w := HomesDone(s), SuperWrite(s.j, s.d);
    SealedSuper(s);
    TornSuper(s.d[s.j.base], s.j.seqNo + 1, Advance(s.j.start, |s.j.pend|), t);
    assert [w][..0] == [] && [w][..1] == [w];
    ApplyNothing(d2);
    if k == 0 && t == 0 {
      assert Crash(d2, [w], 0, 0) == d2;
      CrashAtHomesDone(s, T);
    } else {
      assert Crash(d2, [w], k, t) == CommittedDisk(s);
      CommitDone(s, T);
      RestRecovers(Sys(CommitJbd(s.j), CommittedDisk(s)), []);
    }
  }

  lemma CrashAtHomesDone(s: Sys, T: seq<Txn>)
    requires Inv(s, T) && s.j.pend != [] && s.j.seqNo + 1 < U32_LIMIT
    ensures RecoversTo(HomesDone(s), s.j.base, View(s))
  {
    hide EncodeDesc, EncodeCommit, EncodeSuper, Checksum, Backlog, OpenIsFree, Quiet, RecoversTo, View, Home;
    OpenTxnClean(s);
    CrashInHomes(s, T, |s.j.pend|, 0);
    assert OpenTxn(s)[..|s.j.pend|] == OpenTxn(s);
  }
}
