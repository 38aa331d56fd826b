/** What an earlier life of the ring does to a new file system: mkfs writes the journal superblock but
    leaves the ring as it is, and the next mount replays what it finds there. */
module StaleRing {
  import opened Bytes
  import opened Collections
  import opened Wrappers
  import opened Disk
  import opened JournalFormat
  import opened Journal
  import opened JournalCrash
  import opened JournalRun
  import opened JournalExact
  import opened Volume
  import opened Mkfs
  import opened RootDir

  // ---- recovery depends on the ring alone ----

  ghost predicate SameJournal(c: Disk, d: Disk, base: nat) {
    |c| == |d| && Fits(d, base) && Ring(c, base) == Ring(d, base)
  }

  lemma AppliedRing(c: Disk, d: Disk, base: nat, ws: seq<RawWrite>)
    requires SameJournal(c, d, base) && InRange(d, ws)
    ensures SameJournal(Apply(c, ws), Apply(d, ws), base)
    ensures forall blk: nat :: InJournal(base, blk) ==> Apply(c, ws)[blk] == Apply(d, ws)[blk]
  {
    hide Apply;
    RingBlocks(c, d, base);
    forall blk: nat | InJournal(base, blk)
      ensures Apply(c, ws)[blk] == Apply(d, ws)[blk]
    {
      ApplyDetermined(c, d, ws, blk);
    }
    SameRing(Apply(c, ws), Apply(d, ws), base);
  }

  lemma {:induction false} SameCopies(c: Disk, d: Disk, base: nat, start: nat, targets: seq<nat>)
    requires SameJournal(c, d, base) && start + |targets| < JOURNAL_BLOCKS
    requires forall k :: 0 <= k < |targets| ==> targets[k] < |d|
    ensures Copies(c, base, start, targets) == Copies(d, base, start, targets)
    decreases |targets|
  {
    hide Apply, Ring;
    if targets != [] {
      var m := |targets| - 1;
      SameCopies(c, d, base, start, targets[..m]);
      AppliedRing(c, d, base, Copies(d, base, start, targets[..m]));
    }
  }

  lemma SameTargets(c: Disk, d: Disk, targets: seq<nat>)
    requires |c| == |d|
    ensures GoodTargets(c, targets) == GoodTargets(d, targets)
  {
  }

  /** The copies made in one round of replay. */
  function Round(d: Disk, base: nat, start: nat, seqNo: nat): (ws: seq<RawWrite>)
    requires Fits(d, base) && TxnAt(d, base, start, seqNo).Some?
    ensures InRange(d, ws) && |ws| == GoodTargets(d, Targets(TxnAt(d, base, start, seqNo).value))
    ensures forall k :: 0 <= k < |ws| ==> ws[k].blk == TxnAt(d, base, start, seqNo).value[k].blk
  {
    hide TxnAt, Copies, GoodTargets;
    var targets := Targets(TxnAt(d, base, start, seqNo).value);
    Copies(d, base, start, targets[..GoodTargets(d, targets)])
  }

  lemma SameRound(c: Disk, d: Disk, base: nat, start: nat, seqNo: nat)
    requires SameJournal(c, d, base)
    ensures TxnAt(c, base, start, seqNo) == TxnAt(d, base, start, seqNo)
    ensures TxnAt(d, base, start, seqNo).Some? ==> Round(c, base, start, seqNo) == Round(d, base, start, seqNo)
  {
    SameRingSameTxn(c, d, base, start, seqNo);
    hide TxnAt, Ring, Round;
    if TxnAt(d, base, start, seqNo).Some? {
      SameFound(c, d, base, start, seqNo);
    }
  }

  lemma SameFound(c: Disk, d: Disk, base: nat, start: nat, seqNo: nat)
    requires SameJournal(c, d, base) && TxnAt(c, base, start, seqNo) == TxnAt(d, base, start, seqNo)
      && TxnAt(d, base, start, seqNo).Some?
    ensures Round(c, base, start, seqNo) == Round(d, base, start, seqNo)
  {
    hide TxnAt, Ring, Copies, GoodTargets, Targets;
    var targets := Targets(TxnAt(d, base, start, seqNo).value);
    SameTargets(c, d, targets);
    SameCopies(c, d, base, start, targets[..GoodTargets(d, targets)]);
  }

  lemma RoundProgress(d: Disk, base: nat, start: nat, seqNo: nat)
    requires Fits(d, base) && TxnAt(d, base, start, seqNo).Some?
    requires |Round(d, base, start, seqNo)| == |TxnAt(d, base, start, seqNo).value|
    ensures |LiveSeqs(Apply(d, Round(d, base, start, seqNo)), base, seqNo + 1)| < |LiveSeqs(d, base, seqNo)|
  {
    var targets := Targets(TxnAt(d, base, start, seqNo).value);
    assert targets[..|targets|] == targets;
    hide TxnAt, Ring, Copies, LiveSeqs, Apply;
    ReplayProgress(d, base, start, seqNo, targets);
  }

  /** Replay is one round, and what follows it. */
  lemma ReplayIs(d: Disk, base: nat, start: nat, seqNo: nat)
    requires Fits(d, base)
    ensures TxnAt(d, base, start, seqNo).None? ==> Replay(d, base, start, seqNo) == Recovery([], start, seqNo, true)
    ensures TxnAt(d, base, start, seqNo).Some? ==>
              var ws, n := Round(d, base, start, seqNo), |TxnAt(d, base, start, seqNo).value|;
              var rest := Replay(Apply(d, ws), base, Advance(start, |ws|), seqNo + 1);
              Replay(d, base, start, seqNo) ==
              if |ws| < n then Recovery(ws, start, seqNo, false) else rest.(writes := ws + rest.writes)
  {
    hide TxnAt, Apply, Copies, Advance, Ring, GoodTargets;
  }

  lemma {:induction false} SameReplay(c: Disk, d: Disk, base: nat, start: nat, seqNo: nat)
    requires SameJournal(c, d, base)
    ensures Replay(c, base, start, seqNo) == Replay(d, base, start, seqNo)
    decreases |LiveSeqs(d, base, seqNo)|
  {
    hide TxnAt, Apply, Round, Advance, Ring, Replay, LiveSeqs;
    SameRound(c, d, base, start, seqNo);
    ReplayIs(c, base, start, seqNo);
    ReplayIs(d, base, start, seqNo);
    if TxnAt(d, base, start, seqNo).Some? {
      var ws := Round(d, base, start, seqNo);
      if |ws| == |TxnAt(d, base, start, seqNo).value| {
        RoundProgress(d, base, start, seqNo);
        AppliedRing(c, d, base, ws);
        SameReplay(Apply(c, ws), Apply(d, ws), base, Advance(start, |ws|), seqNo + 1);
      }
    }
  }

  // ---- when a ring does no harm ----

  /** No sealed transaction, from slot `start` and number `seqNo` on, copies a block out of the ring. */
  ghost predicate Harmless(d: Disk, base: nat, start: nat, seqNo: nat)
    requires Fits(d, base)
    decreases |LiveSeqs(d, base, seqNo)|
  {
    TxnAt(d, base, start, seqNo).Some? ==>
      var ws, n := Round(d, base, start, seqNo), |TxnAt(d, base, start, seqNo).value|;
      && InRing(base, ws)
      && (|ws| == n ==>
            (RoundProgress(d, base, start, seqNo); Harmless(Apply(d, ws), base, Advance(start, n), seqNo + 1)))
  }

  ghost predicate InRing(base: nat, ws: seq<RawWrite>) {
    forall i :: 0 <= i < |ws| ==> InJournal(base, ws[i].blk)
  }

  lemma InRingConcat(base: nat, a: seq<RawWrite>, b: seq<RawWrite>)
    ensures InRing(base, a + b) <==> InRing(base, a) && InRing(base, b)
  {
    var r := a + b;
    assert forall i :: 0 <= i < |a| ==> r[i] == a[i];
    assert forall i :: 0 <= i < |b| ==> r[|a| + i] == b[i];
  }

  lemma {:induction false} HarmlessIs(d: Disk, base: nat, start: nat, seqNo: nat)
    requires Fits(d, base)
    ensures Harmless(d, base, start, seqNo) <==> InRing(base, Replay(d, base, start, seqNo).writes)
    decreases |LiveSeqs(d, base, seqNo)|
  {
    hide TxnAt, Apply, Round, Advance, Ring, Replay, LiveSeqs, InRing;
    ReplayIs(d, base, start, seqNo);
    if TxnAt(d, base, start, seqNo).Some? {
      var ws, n := Round(d, base, start, seqNo), |TxnAt(d, base, start, seqNo).value|;
      if |ws| == n {
        RoundProgress(d, base, start, seqNo);
        HarmlessIs(Apply(d, ws), base, Advance(start, n), seqNo + 1);
        InRingConcat(base, ws, Replay(Apply(d, ws), base, Advance(start, n), seqNo + 1).writes);
      }
    } else {
      NothingInRing(base);
    }
  }

  lemma NothingInRing(base: nat)
    ensures InRing(base, [])
  {
  }

  lemma RingOnly(d: Disk, base: nat, ws: seq<RawWrite>)
    requires Fits(d, base) && InRange(d, ws) && InRing(base, ws)
    ensures Home(Apply(d, ws), base) == Home(d, base)
  {
    hide Apply;
    var e := Apply(d, ws);
    forall blk: nat | blk < |d| && !InJournal(base, blk)
      ensures e[blk] == d[blk]
    {
      ApplyFrame(d, ws, blk);
    }
  }

  /** Some other contents. */
  function Other(b: Block): (o: Block)
    ensures o != b
  {
    if b[0] == 0 then b[0 := 1] else b[0 := 0]
  }

  /** A write outside the ring changes a disk with this ring. */
  lemma HomeIsHit(d: Disk, base: nat, i: nat) returns (c: Disk)
    requires Fits(d, base) && i < |Mount(d, base).writes| && !InJournal(base, Mount(d, base).writes[i].blk)
    ensures SameJournal(c, d, base) && Home(Mounted(c, base).d, base) != Home(c, base)
  {
    hide Apply, Mount, Other;
    var ws := Mount(d, base).writes;
    var x := ws[i].blk;
    c := d[x := Other(Apply(d, ws)[x])];
    OtherHome(c, d, base, x);
    SameMount(c, d, base);
    ApplyDetermined(c, d, ws, x);
    assert Home(Mounted(c, base).d, base)[x] == Apply(d, ws)[x];
    assert Home(c, base)[x] == c[x];
  }

  lemma OtherHome(c: Disk, d: Disk, base: nat, x: nat)
    requires Fits(d, base) && x < |d| && !InJournal(base, x) && |c| == |d| && c == d[x := c[x]]
    ensures SameJournal(c, d, base)
  {
    SameRing(c, d, base);
  }

  lemma SameMount(c: Disk, d: Disk, base: nat)
    requires SameJournal(c, d, base)
    ensures Mount(c, base) == Mount(d, base)
  {
    RingBlocks(c, d, base);
    hide Replay, Ring, SuperSeq, SuperStart;
    SameReplay(c, d, base, SuperStart(d[base]), SuperSeq(d[base]));
  }

  /** The mount leaves the home blocks of every disk with this ring alone exactly if the ring does no harm. */
  lemma HarmlessExact(d: Disk, base: nat)
    requires Fits(d, base)
    ensures (forall c: Disk :: SameJournal(c, d, base) ==> Home(Mounted(c, base).d, base) == Home(c, base))
            <==> Harmless(d, base, SuperStart(d[base]), SuperSeq(d[base]))
  {
    hide Home, Harmless, Mounted, Ring, SuperSeq, SuperStart, Replay;
    HarmlessIs(d, base, SuperStart(d[base]), SuperSeq(d[base]));
    var ws := Mount(d, base).writes;
    if InRing(base, ws) {
      forall c: Disk | SameJournal(c, d, base)
        ensures Home(Mounted(c, base).d, base) == Home(c, base)
      {
        MountInRing(c, d, base);
      }
    } else {
      var i: nat :| i < |ws| && !InJournal(base, ws[i].blk);
      var c := HomeIsHit(d, base, i);
    }
  }

  lemma MountInRing(c: Disk, d: Disk, base: nat)
    requires SameJournal(c, d, base) && InRing(base, Mount(d, base).writes)
    ensures Home(Mounted(c, base).d, base) == Home(c, base)
  {
    hide Mount, Home, InRing;
    SameMount(c, d, base);
    RingOnly(c, base, Mount(d, base).writes);
  }

  /** The first transaction, if there is one, begins with a home block of the device, as those of this
      driver do. */
  ghost predicate NamesHome(d: Disk, base: nat, start: nat, seqNo: nat)
    requires Fits(d, base)
  {
    var t := TxnAt(d, base, start, seqNo);
    t.Some? ==> t.value != [] && t.value[0].blk < |d| && !InJournal(base, t.value[0].blk)
  }

  /** After mkfs: the first mount is harmless on all volumes with this ring exactly if the ring has no
      sealed transaction numbered 1 at slot 1. */
  lemma FreshRingExact(d: Disk, base: nat)
    requires Fits(d, base) && d[base] == JournalSuper() && NamesHome(d, base, 1, 1)
    ensures (forall c: Disk :: SameJournal(c, d, base) ==> Home(Mounted(c, base).d, base) == Home(c, base))
            <==> TxnAt(d, base, 1, 1).None?
  {
    JournalSuperReads();
    hide Home, Mounted, Ring, SuperSeq, SuperStart, TxnAt, JournalSuper;
    HarmlessExact(d, base);
    if TxnAt(d, base, 1, 1).Some? {
      FirstIsCopied(d, base, 1, 1);
    }
  }

  lemma FirstIsCopied(d: Disk, base: nat, start: nat, seqNo: nat)
    requires Fits(d, base) && TxnAt(d, base, start, seqNo).Some? && NamesHome(d, base, start, seqNo)
    ensures !Harmless(d, base, start, seqNo)
  {
    hide TxnAt, Apply;
    var ws := Round(d, base, start, seqNo);
    assert ws[0].blk == TxnAt(d, base, start, seqNo).value[0].blk;
  }

  // ---- a file system that does not survive its first mount ----

  /** An earlier life of the ring: transaction 1 sealed at slot 1, with block 0 as it was then. */
  ghost predicate OldLife(d: Disk, was: Block) {
    && RING_AT + RING_BLOCKS <= |d|
    && d[RING_AT + 1] == EncodeDesc(1, [0]) && d[RING_AT + 2] == was
    && d[RING_AT + 3] == EncodeCommit(1, Checksum(EncodeDesc(1, [0]), [was]), 1)
    && R32(d[RING_AT + 4], 0) != MAGIC
  }

  lemma OldLifeFound(d: Disk, e: Disk, was: Block)
    requires OldLife(d, was) && RingLeft(d, e) && Fits(e, RING_AT)
    ensures TxnAt(e, RING_AT, 1, 1) == Some([RawWrite(0, was)])
  {
    hide EncodeDesc, EncodeCommit, Checksum, JournalSuper, IsDesc, IsCommit;
    assert SlotLeft(d, e, 1) && SlotLeft(d, e, 2) && SlotLeft(d, e, 3);
    DescRoundTrip(1, [0]);
    CommitRoundTrip(1, Checksum(EncodeDesc(1, [0]), [was]), 1);
    assert e[RING_AT + 2..RING_AT + 3] == [was];
    var blks := [0];
    assert R32(EncodeDesc(1, blks), 16 + 4 * 0) == blks[0];
    assert TxnWrites(e, RING_AT, 1, 1) == [RawWrite(0, was)];
  }

  lemma OldLifeStays(d: Disk, e: Disk, was: Block)
    requires OldLife(d, was) && RingLeft(d, e) && Fits(e, RING_AT)
    ensures e[RING_AT + 2] == was && R32(e[RING_AT + 4], 0) != MAGIC
    ensures SuperSeq(e[RING_AT]) == 1 && SuperStart(e[RING_AT]) == 1
  {
    hide EncodeDesc, EncodeCommit, Checksum, JournalSuper, R32;
    JournalSuperReads();
    assert SlotLeft(d, e, 2) && SlotLeft(d, e, 4);
  }

  lemma OldLifeWrites(d: Disk, e: Disk, was: Block)
    requires OldLife(d, was) && RingLeft(d, e) && Fits(e, RING_AT)
    ensures Mounted(e, RING_AT).d[0] == was
  {
    OldLifeFound(d, e, was);
    OldLifeStays(d, e, was);
    hide *;
    RoundIs(e, was);
    AfterRound(e, was);
    OneRound(e, was);
  }

  lemma AfterRound(e: Disk, was: Block)
    requires Fits(e, RING_AT) && R32(e[RING_AT + 4], 0) != MAGIC
    ensures TxnAt(Apply(e, [RawWrite(0, was)]), RING_AT, 4, 2).None?
  {
    hide TxnAt, Apply, R32;
    var w := RawWrite(0, was);
    ApplyOne(e, w);
    NothingThere(Apply(e, [w]), 4, 2);
  }

  lemma OneRound(e: Disk, was: Block)
    requires Fits(e, RING_AT) && TxnAt(e, RING_AT, 1, 1) == Some([RawWrite(0, was)])
    requires SuperSeq(e[RING_AT]) == 1 && SuperStart(e[RING_AT]) == 1 && Round(e, RING_AT, 1, 1) == [RawWrite(0, was)]
    requires TxnAt(Apply(e, [RawWrite(0, was)]), RING_AT, 4, 2).None?
    ensures Mounted(e, RING_AT).d[0] == was
  {
    hide TxnAt, Apply, Round, Replay, SuperSeq, SuperStart;
    var w := RawWrite(0, was);
    ReplayIs(e, RING_AT, 1, 1);
    ReplayIs(Apply(e, [w]), RING_AT, 4, 2);
    assert [w] + [] == [w];
    ApplyOne(e, w);
  }

  lemma RoundIs(e: Disk, was: Block)
    requires Fits(e, RING_AT) && TxnAt(e, RING_AT, 1, 1) == Some([RawWrite(0, was)]) && e[RING_AT + 2] == was
    ensures Round(e, RING_AT, 1, 1) == [RawWrite(0, was)]
  {
    hide TxnAt;
    var targets := Targets([RawWrite(0, was)]);
    assert targets == [0];
    assert GoodTargets(e, targets) == 1;
    assert targets[..1] == [0] && targets[..0] == [];
    assert Copies(e, RING_AT, 1, []) == [];
    ApplyNothing(e);
  }

  lemma NothingThere(f: Disk, start: nat, seqNo: nat)
    requires Fits(f, RING_AT) && start < JOURNAL_BLOCKS && R32(f[RING_AT + start], 0) != MAGIC
    ensures TxnAt(f, RING_AT, start, seqNo).None?
  {
  }

  /** mkfs on a device with such a ring: the new file system is sound, and its first mount, which mkfs
      itself ends with, replaces the block of its superblock by the old one. */
  method FormatOverOldLife(v: Device, was: Block) returns (inos: seq<nat>, ghost files: map<nat, seq<nat>>)
    requires v.Valid() && v.making && Told(v.geo) && v.geo.groups <= MAX_DESCS && v.geo.total == |v.d|
      && FormatAnswer(v.geo).None? && OldLife(v.d, was)
    modifies v`d, v`log, v`dirs
    ensures v.Valid() && Formatted(v.d, v.geo, v.csum, files, inos)
    ensures Fits(v.d, RING_AT) && Mounted(v.d, RING_AT).d[0] == was
  {
    hide Formatted, OldLife, Mounted, RingLeft, Overwrite;
    ghost var d := v.d;
    var err;
    err, inos, files := FormatVolume(v);
    LeftFits(d, v.d);
    OldLifeWrites(d, v.d, was);
  }

  lemma LeftFits(d: Disk, e: Disk)
    requires RingLeft(d, e) && |d| >= 8192
    ensures Fits(e, RING_AT)
  {
  }
}
