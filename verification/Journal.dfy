/** The write-ahead journal as functions on values: what a read returns, which raw writes a
    block write or a commit makes and in what order, and what recovery does with a disk.
    The class in JournalDevice.dfy is proved to do exactly this. */
module Journal {
  import opened Bytes
  import opened Collections
  import opened Wrappers
  import opened Disk
  import opened JournalFormat

  /** A block waiting for the commit, and the ring slot its new contents were logged to. */
  datatype Pend = Pend(blk: nat, pos: nat)

  datatype Jbd = Jbd(base: nat, start: nat, seqNo: nat, pend: seq<Pend>)

  datatype Sys = Sys(j: Jbd, d: Disk)

  predicate InJournal(base: nat, blk: nat) {
    base <= blk < base + JOURNAL_BLOCKS
  }

  /** The device holds the journal and at least two more blocks. */
  predicate Fits(d: Disk, base: nat) {
    base + JOURNAL_BLOCKS + 2 <= |d|
  }

  /** The first pending entry for a block. */
  function FindPend(pend: seq<Pend>, blk: nat): (r: Option<nat>)
    ensures r.Some? ==> r.value < |pend| && pend[r.value].blk == blk
    ensures r.Some? ==> forall i :: 0 <= i < r.value ==> pend[i].blk != blk
    ensures r.None? ==> forall i :: 0 <= i < |pend| ==> pend[i].blk != blk
  {
    if pend == [] then None
    else if pend[0].blk == blk then Some(0)
    else
      match FindPend(pend[1..], blk)
      case None => None
      case Some(k) => Some(k + 1)
  }

  function Blks(pend: seq<Pend>): (r: seq<nat>)
    ensures |r| == |pend| && forall k :: 0 <= k < |pend| ==> r[k] == pend[k].blk
  {
    seq(|pend|, k requires 0 <= k < |pend| => pend[k].blk)
  }

  /** The slot behind a transaction of `n` blocks at slot `at`, or slot 1 when that is past the ring's end. */
  predicate Behind(at: nat, n: nat, next: nat) {
    if at + n + 2 < JOURNAL_BLOCKS then next == at + n + 2 else next == 1
  }

  /** The slot after a transaction of `n` blocks that starts at `start`. */
  function Advance(start: nat, n: nat): (r: nat)
    ensures 1 <= r <= LAST_SLOT
  {
    if start + 2 + n > LAST_SLOT then 1 else start + 2 + n
  }

  /** Everything the operations index is inside the device and encodable. */
  predicate WellSized(s: Sys) {
    var j := s.j;
    && Fits(s.d, j.base)
    && 1 <= j.start <= LAST_SLOT
    && |j.pend| <= MAX_PEND
    && (j.pend != [] ==> j.start + |j.pend| <= JOURNAL_BLOCKS)
    && (forall k :: 0 <= k < |j.pend| ==>
          j.pend[k].blk < |s.d| && j.pend[k].blk < U32_LIMIT && j.pend[k].pos <= JOURNAL_BLOCKS)
  }

  /** The 1024 journal blocks. */
  function Ring(d: Disk, base: nat): (r: seq<Block>)
    requires Fits(d, base)
    ensures |r| == JOURNAL_BLOCKS
  {
    d[base..base + JOURNAL_BLOCKS]
  }

  // ---- reading ----

  function Read(s: Sys, blk: nat): Block
    requires WellSized(s) && blk < |s.d|
  {
    match FindPend(s.j.pend, blk)
    case Some(k) => s.d[s.j.base + s.j.pend[k].pos]
    case None => s.d[blk]
  }

  // ---- committing ----

  /** Copies of ring slots start+1, start+2, ... to the target blocks, one after the other,
      each slot read just before its copy is written. */
  function Copies(d: Disk, base: nat, start: nat, targets: seq<nat>): (ws: seq<RawWrite>)
    requires base + start + |targets| < |d|
    requires forall k :: 0 <= k < |targets| ==> targets[k] < |d|
    ensures |ws| == |targets| && InRange(d, ws)
    ensures forall k :: 0 <= k < |ws| ==> ws[k].blk == targets[k]
    decreases |targets|
  {
    if targets == [] then []
    else
      var m := |targets| - 1;
      var prev := Copies(d, base, start, targets[..m]);
      prev + [RawWrite(targets[m], Apply(d, prev)[base + start + 1 + m])]
  }

  lemma CopiesNothing(d: Disk, base: nat, start: nat)
    requires base + start < |d|
    ensures Copies(d, base, start, []) == []
  {
  }

  lemma CopiesSnoc(d: Disk, base: nat, start: nat, targets: seq<nat>, t: nat)
    requires base + start + |targets| + 1 < |d| && t < |d|
    requires forall k :: 0 <= k < |targets| ==> targets[k] < |d|
    ensures var prev := Copies(d, base, start, targets);
      var now := Apply(d, prev);
      && Copies(d, base, start, targets + [t]) == prev + [RawWrite(t, now[base + start + 1 + |targets|])]
      && Apply(d, Copies(d, base, start, targets + [t])) == now[t := now[base + start + 1 + |targets|]]
  {
    var ts := targets + [t];
    assert ts[..|targets|] == targets;
    var prev := Copies(d, base, start, targets);
    var w := RawWrite(t, Apply(d, prev)[base + start + 1 + |targets|]);
    assert Copies(d, base, start, ts) == prev + [w];
    ApplyConcat(d, prev, [w]);
    ApplyOne(Apply(d, prev), w);
  }

  function Logged(j: Jbd, d: Disk): (r: seq<Block>)
    requires WellSized(Sys(j, d)) && j.pend != []
    ensures |r| == |j.pend|
  {
    d[j.base + j.start + 1..j.base + j.start + 1 + |j.pend|]
  }

  /** Descriptor, then commit block. */
  function SealWrites(j: Jbd, d: Disk): (ws: seq<RawWrite>)
    requires WellSized(Sys(j, d)) && j.pend != [] && j.seqNo < U32_LIMIT
    ensures InRange(d, ws) && |ws| == 2
  {
    var n := |j.pend|;
    var desc := EncodeDesc(j.seqNo, Blks(j.pend));
    [RawWrite(j.base + j.start, desc),
     RawWrite(j.base + j.start + 1 + n, EncodeCommit(j.seqNo, Checksum(desc, Logged(j, d)), n))]
  }

  /** The logged copies, written to their home blocks of the sealed disk. */
  function HomeCopies(j: Jbd, d: Disk): (ws: seq<RawWrite>)
    requires WellSized(Sys(j, d)) && j.pend != []
    ensures InRange(d, ws) && |ws| == |j.pend|
  {
    Copies(d, j.base, j.start, Blks(j.pend))
  }

  /** The journal superblock moves past the committed transaction. */
  function SuperWrite(j: Jbd, d: Disk): (w: RawWrite)
    requires WellSized(Sys(j, d)) && j.seqNo + 1 < U32_LIMIT
    ensures w.blk == j.base
  {
    RawWrite(j.base, EncodeSuper(d[j.base], j.seqNo + 1, Advance(j.start, |j.pend|)))
  }

  function AfterSeal(j: Jbd, d: Disk): (r: Disk)
    requires WellSized(Sys(j, d)) && j.pend != [] && j.seqNo < U32_LIMIT
    ensures |r| == |d|
  {
    Apply(d, SealWrites(j, d))
  }

  function AfterHomes(j: Jbd, d: Disk): (r: Disk)
    requires WellSized(Sys(j, d)) && j.pend != [] && j.seqNo < U32_LIMIT
    ensures |r| == |d|
  {
    Apply(AfterSeal(j, d), HomeCopies(j, AfterSeal(j, d)))
  }

  function CommitWrites(j: Jbd, d: Disk): (ws: seq<RawWrite>)
    requires WellSized(Sys(j, d)) && j.seqNo + 1 < U32_LIMIT
    ensures InRange(d, ws)
  {
    hide SealWrites, HomeCopies, SuperWrite;
    if j.pend == [] then []
    else SealWrites(j, d) + HomeCopies(j, AfterSeal(j, d)) + [SuperWrite(j, AfterHomes(j, d))]
  }

  function AfterCommit(j: Jbd, d: Disk): (r: Disk)
    requires WellSized(Sys(j, d)) && j.pend != [] && j.seqNo + 1 < U32_LIMIT
    ensures |r| == |d|
  {
    hide AfterHomes, EncodeSuper;
    AfterHomes(j, d)[j.base := SuperWrite(j, AfterHomes(j, d)).data]
  }

  function CommitJbd(j: Jbd): Jbd {
    if j.pend == [] then j
    else j.(start := Advance(j.start, |j.pend|), seqNo := j.seqNo + 1, pend := [])
  }

  // ---- writing ----

  /** The open transaction has no room for one more block. */
  predicate MustCommit(j: Jbd) {
    j.pend != [] && (|j.pend| == MAX_PEND || j.start + |j.pend| + 2 > LAST_SLOT)
  }

  /** A transaction that cannot hold even one block before the end of the ring begins at slot 1. */
  function BeginStart(j: Jbd): nat {
    if j.pend == [] && j.start + 2 > LAST_SLOT then 1 else j.start
  }

  /** Writing `blk` first commits what is pending. */
  predicate Forces(j: Jbd, blk: nat) {
    !InJournal(j.base, blk) && FindPend(j.pend, blk).None? && MustCommit(j)
  }

  /** The slot a fresh block is logged to. */
  function LogSlot(j: Jbd): nat {
    if MustCommit(j) then Advance(j.start, |j.pend|) + 1
    else BeginStart(j) + 1 + |j.pend|
  }

  function WriteWrites(s: Sys, blk: nat, buf: Block): (ws: seq<RawWrite>)
    requires WellSized(s) && blk < |s.d| && s.j.seqNo + 1 < U32_LIMIT
    ensures InRange(s.d, ws)
  {
    hide CommitWrites;
    var j := s.j;
    if InJournal(j.base, blk) then [RawWrite(blk, buf)]
    else
      match FindPend(j.pend, blk)
      case Some(k) => [RawWrite(j.base + j.pend[k].pos, buf)]
      case None =>
        (if MustCommit(j) then CommitWrites(j, s.d) else []) + [RawWrite(j.base + LogSlot(j), buf)]
  }

  function WriteJbd(j: Jbd, blk: nat): Jbd {
    if InJournal(j.base, blk) || FindPend(j.pend, blk).Some? then j
    else if MustCommit(j) then CommitJbd(j).(pend := [Pend(blk, LogSlot(j))])
    else j.(start := BeginStart(j), pend := j.pend + [Pend(blk, LogSlot(j))])
  }

  // ---- recovery ----

  /** A transaction found in the ring: its home writes. */
  type Txn = seq<RawWrite>

  /** The blocks named by the first `n` entries of a descriptor, with the logged contents. */
  function TxnWrites(d: Disk, base: nat, start: nat, n: nat): (t: Txn)
    requires Fits(d, base) && n <= MAX_PEND && start + 2 + n <= JOURNAL_BLOCKS
    ensures |t| == n
  {
    seq(n, k requires 0 <= k < n => RawWrite(R32(d[base + start], 16 + 4 * k), d[base + start + 1 + k]))
  }

  /** The sealed transaction with number `seqNo` at ring slot `start`, if recovery accepts one. */
  function TxnAt(d: Disk, base: nat, start: nat, seqNo: nat): (r: Option<Txn>)
    requires Fits(d, base)
    ensures r.Some? ==> start + 2 + |r.value| <= JOURNAL_BLOCKS
    ensures r.Some? ==> IsDesc(d[base + start], seqNo)
  {
    if start + 2 > JOURNAL_BLOCKS then None
    else
      var desc := d[base + start];
      var n := R32(desc, 12);
      if !IsDesc(desc, seqNo) then None
      else if n > MAX_PEND || start + 2 + n > JOURNAL_BLOCKS then None
      else
        var c := d[base + start + 1 + n];
        if !IsCommit(c, seqNo) then None
        else if R32(c, 12) != Checksum(desc, d[base + start + 1..base + start + 1 + n]) then None
        else Some(TxnWrites(d, base, start, n))
  }

  function Targets(t: seq<RawWrite>): (r: seq<nat>)
    ensures |r| == |t| && forall k :: 0 <= k < |t| ==> r[k] == t[k].blk
  {
    seq(|t|, k requires 0 <= k < |t| => t[k].blk)
  }

  /** How many leading targets are inside the device; a raw write outside it fails. */
  function GoodTargets(d: Disk, targets: seq<nat>): (m: nat)
    ensures m <= |targets|
    ensures forall k :: 0 <= k < m ==> targets[k] < |d|
    ensures m < |targets| ==> targets[m] >= |d|
  {
    if targets == [] || targets[0] >= |d| then 0 else 1 + GoodTargets(d, targets[1..])
  }

  /** Sequence numbers of at least `seqNo` that recovery could still meet in the ring. */
  function LiveSeqs(d: Disk, base: nat, seqNo: nat): set<nat>
    requires Fits(d, base)
  {
    set b: Block | b in Ring(d, base) && R32(b, 8) >= seqNo :: R32(b, 8)
  }

  datatype Recovery = Recovery(writes: seq<RawWrite>, start: nat, seqNo: nat, ok: bool)

  /** Everything recovery does from (start, seqNo): the raw writes in order, and where it ends.
      It terminates on every disk, however the ring got its contents. */
  function Replay(d: Disk, base: nat, start: nat, seqNo: nat): (r: Recovery)
    requires Fits(d, base)
    ensures InRange(d, r.writes)
    decreases |LiveSeqs(d, base, seqNo)|
  {
    match TxnAt(d, base, start, seqNo)
    case None => Recovery([], start, seqNo, true)
    case Some(t) =>
      var m := GoodTargets(d, Targets(t));
      var ws := Copies(d, base, start, Targets(t)[..m]);
      if m < |t| then Recovery(ws, start, seqNo, false)
      else
        assert Targets(t)[..m] == Targets(t);
        ReplayProgress(d, base, start, seqNo, Targets(t));
        var rest := Replay(Apply(d, ws), base, Advance(start, m), seqNo + 1);
        ApplyConcat(d, ws, rest.writes);
        rest.(writes := ws + rest.writes)
  }

  /** Copying ring slots never brings new contents into the ring. */
  lemma {:induction false} CopiesFromRing(d: Disk, base: nat, start: nat, targets: seq<nat>, slot: nat)
    requires Fits(d, base) && start + |targets| < JOURNAL_BLOCKS && slot < JOURNAL_BLOCKS
    requires forall k :: 0 <= k < |targets| ==> targets[k] < |d|
    ensures Apply(d, Copies(d, base, start, targets))[base + slot] in Ring(d, base)
    decreases |targets|
  {
    hide Ring, Apply;
    var ws := Copies(d, base, start, targets);
    if targets == [] {
      RingHas(d, base, slot);
      ApplyNothing(d);
    } else {
      var m := |targets| - 1;
      var prev := Copies(d, base, start, targets[..m]);
      var w := RawWrite(targets[m], Apply(d, prev)[base + start + 1 + m]);
      ApplyConcat(d, prev, [w]);
      ApplyOne(Apply(d, prev), w);
      CopiesFromRing(d, base, start, targets[..m], if targets[m] == base + slot then start + 1 + m else slot);
    }
  }

  lemma RingHas(d: Disk, base: nat, slot: nat)
    requires Fits(d, base) && slot < JOURNAL_BLOCKS
    ensures d[base + slot] in Ring(d, base)
  {
    assert Ring(d, base)[slot] == d[base + slot];
  }

  /** Each replayed transaction uses up its sequence number. */
  lemma ReplayProgress(d: Disk, base: nat, start: nat, seqNo: nat, targets: seq<nat>)
    requires Fits(d, base) && start + |targets| < JOURNAL_BLOCKS
    requires R32(d[base + start], 8) == seqNo
    requires forall k :: 0 <= k < |targets| ==> targets[k] < |d|
    ensures |LiveSeqs(Apply(d, Copies(d, base, start, targets)), base, seqNo + 1)| < |LiveSeqs(d, base, seqNo)|
  {
    var e := Apply(d, Copies(d, base, start, targets));
    var before, after := LiveSeqs(d, base, seqNo), LiveSeqs(e, base, seqNo + 1);
    forall b: Block | b in Ring(e, base)
      ensures b in Ring(d, base)
    {
      var slot: nat :| slot < JOURNAL_BLOCKS && Ring(e, base)[slot] == b;
      CopiesFromRing(d, base, start, targets, slot);
    }
    assert Ring(d, base)[start] == d[base + start];
    assert seqNo in before;
    assert after <= before - {seqNo};
    SubsetSize(after, before - {seqNo});
  }

  /** jbd_init on a disk whose journal superblock carries the magic number. */
  function Mount(d: Disk, base: nat): (r: Recovery)
    requires Fits(d, base)
    ensures InRange(d, r.writes)
  {
    Replay(d, base, SuperStart(d[base]), SuperSeq(d[base]))
  }

  /** The system after a successful mount. */
  function Mounted(d: Disk, base: nat): Sys
    requires Fits(d, base)
  {
    var r := Mount(d, base);
    Sys(Jbd(base, r.start, r.seqNo, []), Apply(d, r.writes))
  }
}
