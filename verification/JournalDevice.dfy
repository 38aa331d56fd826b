/** The journaled block device itself: the mutable journal state, the disk under it, and the
    operations of the driver, each proved to do what the functions of module Journal say. */
module JournalDevice {
  import opened Bytes
  import opened Wrappers
  import opened Disk
  import opened JournalFormat
  import opened Journal
  import opened JournalCrash
  import opened JournalRun
  import Crc

  class JournalDevice {
    var disk: Disk
    const base: nat
    var start: nat
    var seqNo: nat
    var active: bool
    const pend: array<Pend>
    var pendLen: nat

    /** Every raw write made so far, oldest first. */
    ghost var trace: seq<RawWrite>

    function State(): Sys
      reads this, pend
      requires pendLen <= pend.Length
    {
      Sys(Jbd(base, start, seqNo, pend[..pendLen]), disk)
    }

    ghost predicate Valid()
      reads this, pend
    {
      pend.Length == MAX_PEND && pendLen <= MAX_PEND && WellSized(State()) && (!active ==> pendLen == 0)
    }

    /** jbd_init: find the journal superblock, replay, arm the journal. A journal that is absent
        or whose replay fails leaves the device unjournaled. */
    constructor (d: Disk, base: nat)
      requires Fits(d, base)
      ensures this.base == base && Valid()
      ensures R32(d[base], 0) != MAGIC ==> !active && disk == d && trace == []
      ensures R32(d[base], 0) == MAGIC ==>
                && (active <==> Mount(d, base).ok)
                && trace == Mount(d, base).writes
                && (active ==> State() == Mounted(d, base))
    {
      this.base := base;
      disk := d;
      start := 1;
      seqNo := 0;
      active := false;
      pend := new Pend[MAX_PEND](_ => Pend(0, 0));
      pendLen := 0;
      trace := [];
      new;
      hide Mount, Mounted, R32, WellSized;
      Arm();
    }

    /** The rest of jbd_init. */
    method Arm()
      requires Fits(disk, base) && pend.Length == MAX_PEND && pendLen == 0 && trace == [] && !active && start == 1
      modifies this`disk, this`trace, this`start, this`seqNo, this`active
      ensures Valid() && (R32(old(disk)[base], 0) != MAGIC ==> !active && disk == old(disk) && trace == [])
      ensures R32(old(disk)[base], 0) == MAGIC ==>
                && (active <==> Mount(old(disk), base).ok)
                && trace == Mount(old(disk), base).writes
                && (active ==> State() == Mounted(old(disk), base))
    {
      hide Replay, Apply;
      assert pend[..pendLen] == [];
      var sb := ReadRaw(base);
      if R32(sb, 0) == MAGIC {
        seqNo := R32(sb, 8);
        start := R32(sb, 12);
        if start == 0 || start >= JOURNAL_BLOCKS {
          start := 1;
        }
        ghost var done;
        active, done := ReplayLog();
      }
    }

    method ReadRaw(blk: nat) returns (buf: Block)
      requires blk < |disk|
      ensures buf == disk[blk]
    {
      buf := disk[blk];
    }

    /** A raw write outside the device fails and changes nothing. */
    method WriteRaw(blk: nat, buf: Block) returns (ok: bool)
      modifies this`disk, this`trace
      ensures ok <==> blk < |old(disk)|
      ensures ok ==> disk == old(disk)[blk := buf] && trace == old(trace) + [RawWrite(blk, buf)]
      ensures !ok ==> disk == old(disk) && trace == old(trace)
    {
      ok := blk < |disk|;
      if ok {
        disk := disk[blk := buf];
        trace := trace + [RawWrite(blk, buf)];
      }
    }

    /** The search through the pending list that reads and writes begin with. */
    method FindPending(blk: nat) returns (r: Option<nat>)
      requires pendLen <= pend.Length
      ensures r == FindPend(pend[..pendLen], blk)
    {
      for k := 0 to pendLen
        invariant forall i :: 0 <= i < k ==> pend[i].blk != blk
      {
        if pend[k].blk == blk {
          assert pend[..pendLen][k].blk == blk;
          return Some(k);
        }
      }
      return None;
    }

    method ReadBlock(blk: nat) returns (buf: Block)
      requires Valid() && blk < |disk|
      ensures buf == if active then Read(State(), blk) else disk[blk]
    {
      if active {
        var found := FindPending(blk);
        if found.Some? {
          buf := ReadRaw(base + pend[found.value].pos);
          return;
        }
      }
      buf := ReadRaw(blk);
    }

    method WriteBlock(blk: nat, buf: Block) returns (ok: bool)
      requires Valid() && blk < |disk| && blk < U32_LIMIT && seqNo + 2 < U32_LIMIT
      modifies this, pend
      ensures Valid() && ok && active == old(active)
      ensures active ==> State() == Exec(old(State()), Write(blk, buf))
      ensures active ==> trace == old(trace) + OpWrites(old(State()), Write(blk, buf))
      ensures !active ==>
                State() == old(State()).(d := old(disk)[blk := buf]) && trace == old(trace) + [RawWrite(blk, buf)]
    {
      hide CommitWrites, FindPend, Apply;
      if active && !(base <= blk < base + JOURNAL_BLOCKS) {
        var found := FindPending(blk);
        if found.Some? {
          var pos := pend[found.value].pos;
          ApplyOne(disk, RawWrite(base + pos, buf));
          ok := WriteRaw(base + pos, buf);
        } else {
          ok := LogFresh(blk, buf);
        }
      } else {
        ApplyOne(disk, RawWrite(blk, buf));
        ok := WriteRaw(blk, buf);
      }
    }

    /** A block that is not pending yet: make room, log it, remember it. */
    method LogFresh(blk: nat, buf: Block) returns (ok: bool)
      requires Valid() && blk < |disk| && blk < U32_LIMIT && seqNo + 2 < U32_LIMIT
      requires active && !InJournal(base, blk) && FindPend(pend[..pendLen], blk) == None
      modifies this, pend
      ensures Valid() && ok && active == old(active)
      ensures State() == Exec(old(State()), Write(blk, buf))
      ensures trace == old(trace) + OpWrites(old(State()), Write(blk, buf))
    {
      hide CommitWrites, FindPend, Apply, Read, WriteWrites, Copies, Ring, Logged, OpWrites, WriteJbd, LogSlot,
           BeginStart, MustCommit, CommitJbd;
      ghost var s := State();
      MakeRoom();
      ghost var head := RoomWrites(s);
      ghost var j := State().j;
      var pos := start + 1 + pendLen;
      LogFreshJbd(s, blk, j);
      LogFreshParts(s, blk, buf, head, disk);
      ok := WriteRaw(base + pos, buf);
      pend[pendLen] := Pend(blk, pos);
      pendLen := pendLen + 1;
      assert pend[..pendLen] == j.pend + [Pend(blk, pos)];
    }

    /** Before a fresh block is logged: an empty transaction wraps in memory when it would begin too
        close to the end of the ring, and a full one is committed. */
    method MakeRoom()
      requires Valid() && seqNo + 2 < U32_LIMIT && active
      modifies this
      ensures Valid() && active && pendLen < MAX_PEND && start + pendLen + 1 <= JOURNAL_BLOCKS
      ensures State() == Sys(RoomJbd(old(State()).j), Apply(old(disk), RoomWrites(old(State()))))
      ensures trace == old(trace) + RoomWrites(old(State()))
    {
      hide CommitWrites, FindPend, Apply, Read, Copies, Ring, Logged;
      ApplyNothing(disk);
      if pendLen == 0 {
        if start + 2 > JOURNAL_BLOCKS - 1 {
          start := 1;
        }
      } else if pendLen == MAX_PEND || start + pendLen + 2 > JOURNAL_BLOCKS - 1 {
        CommitLocked();
      }
    }

    /** The descriptor block of the pending transaction. */
    method BuildDesc() returns (d: Block)
      requires Valid() && seqNo < U32_LIMIT
      ensures IsU32s(Blks(State().j.pend)) && d == EncodeDesc(seqNo, Blks(State().j.pend))
    {
      var n := pendLen;
      ghost var blks := Blks(State().j.pend);
      assert IsU32s(blks);
      d := ZERO_BLOCK;
      d := W32(d, 0, MAGIC);
      d := W32(d, 4, DESC);
      d := W32(d, 8, seqNo);
      d := W32(d, 12, n);
      assert d == DescHeader(seqNo, n);
      assert n <= MAX_PEND && forall k :: 0 <= k < n ==> pend[k].blk == blks[k];
      hide R32, W32, DescHeader, Blks, State, Valid;
      for k := 0 to n
        invariant d == PutNumbers(DescHeader(seqNo, n), blks[..k])
      {
        assert blks[..k + 1][..k] == blks[..k];
        d := W32(d, 16 + 4 * k, pend[k].blk);
      }
      assert blks[..n] == blks;
    }

    /** The checksum of a descriptor and the `n` slots after the one it is for. */
    method LogChecksum(d: Block, first: nat, n: nat) returns (chk: nat)
      requires base + first + n < |disk|
      ensures chk == Checksum(d, disk[base + first + 1..base + first + 1 + n])
    {
      hide Crc.Crc32c, ChecksumFrom;
      ghost var data := disk[base + first + 1..base + first + 1 + n];
      ChecksumNothing(Crc.Crc32c(Crc.ONES, d));
      var c := Crc.ComputeCrc32c(Crc.ONES, d);
      for k := 0 to n
        invariant c == ChecksumFrom(Crc.Crc32c(Crc.ONES, d), data[..k])
      {
        var db := ReadRaw(base + first + 1 + k);
        assert data[..k + 1] == data[..k] + [db];
        ChecksumLast(Crc.Crc32c(Crc.ONES, d), data[..k], db);
        c := Crc.ComputeCrc32c(c, db);
      }
      assert data[..n] == data;
      chk := Crc.Number(c);
    }

    method BuildCommit(chk: nat, n: nat) returns (c: Block)
      requires seqNo < U32_LIMIT && chk < U32_LIMIT && n <= MAX_PEND
      ensures c == EncodeCommit(seqNo, chk, n)
    {
      c := ZERO_BLOCK;
      c := W32(c, 0, MAGIC);
      c := W32(c, 4, COMMIT);
      c := W32(c, 8, seqNo);
      c := W32(c, 12, chk);
      c := W32(c, 16, n);
    }

    /** Copies the logged contents to their home blocks, slot by slot. */
    method CopyHomes(first: nat)
      requires Valid() && first == start && pendLen > 0
      modifies this`disk, this`trace
      ensures |disk| == |old(disk)|
      ensures disk == Apply(old(disk), HomeCopies(old(State()).j, old(disk)))
      ensures trace == old(trace) + HomeCopies(old(State()).j, old(disk))
    {
      hide Copies, Apply;
      ghost var d0, blks := disk, Blks(State().j.pend);
      var n := pendLen;
      ApplyNothing(d0);
      CopiesNothing(d0, base, first);
      for k := 0 to n
        modifies this`disk, this`trace
        invariant |disk| == |d0|
        invariant disk == Apply(d0, Copies(d0, base, first, blks[..k]))
        invariant trace == old(trace) + Copies(d0, base, first, blks[..k])
      {
        assert blks[..k + 1] == blks[..k] + [pend[k].blk];
        CopiesSnoc(d0, base, first, blks[..k], pend[k].blk);
        var db := ReadRaw(base + first + 1 + k);
        var _ := WriteRaw(pend[k].blk, db);
      }
      assert blks[..n] == blks;
    }

    /** jbd_write_super: two fields of the journal superblock are replaced. */
    method WriteSuper()
      requires base < |disk| && seqNo < U32_LIMIT && start < U32_LIMIT
      modifies this`disk, this`trace
      ensures disk == old(disk)[base := EncodeSuper(old(disk)[base], seqNo, start)]
      ensures trace == old(trace) + [RawWrite(base, EncodeSuper(old(disk)[base], seqNo, start))]
    {
      var sb := ReadRaw(base);
      sb := W32(sb, 8, seqNo);
      sb := W32(sb, 12, start);
      var _ := WriteRaw(base, sb);
    }

    /** Descriptor and commit block of the pending transaction. */
    method WriteSeal(first: nat, n: nat)
      requires Valid() && seqNo < U32_LIMIT && first == start && n == pendLen > 0
      modifies this`disk, this`trace
      ensures disk == AfterSeal(old(State()).j, old(disk))
      ensures trace == old(trace) + SealWrites(old(State()).j, old(disk))
    {
      hide EncodeDesc, EncodeCommit, Checksum, Apply;
      SealApplied(State());
      var d := BuildDesc();
      var chk := LogChecksum(d, first, n);
      var c := BuildCommit(chk, n);
      // 1. descriptor
      var _ := WriteRaw(base + first, d);
      // 2. commit block
      var _ := WriteRaw(base + first + 1 + n, c);
    }

    /** The transaction's slots are free again. */
    method MoveOn(first: nat, n: nat)
      requires base < |disk| && seqNo + 1 < U32_LIMIT
      modifies this`disk, this`trace, this`start, this`seqNo, this`pendLen
      ensures start == Advance(first, n) && Behind(first, n, start) && seqNo == old(seqNo) + 1 && pendLen == 0
      ensures |disk| == |old(disk)| && SuperStart(disk[base]) == start && SuperSeq(disk[base]) == seqNo
      ensures disk == old(disk)[base := EncodeSuper(old(disk)[base], seqNo, start)]
      ensures trace == old(trace) + [RawWrite(base, EncodeSuper(old(disk)[base], seqNo, start))]
    {
      start := first + 2 + n;
      if start > JOURNAL_BLOCKS - 1 {
        start := 1;
      }
      seqNo := seqNo + 1;
      pendLen := 0;
      SuperRoundTrip(disk[base], seqNo, start);
      WriteSuper();
    }

    /** Descriptor, commit block, home blocks, journal superblock, in this order. */
    method CommitLocked()
      requires Valid() && seqNo + 1 < U32_LIMIT
      modifies this
      ensures Valid() && active == old(active)
      ensures State() == Exec(old(State()), Commit)
      ensures trace == old(trace) + CommitWrites(old(State()).j, old(disk))
      ensures active && old(pendLen) > 0 ==>
                && Behind(old(start), old(pendLen), start) && seqNo == old(seqNo) + 1 && pendLen == 0
                && base < |disk| && SuperStart(disk[base]) == start && SuperSeq(disk[base]) == seqNo
    {
      hide SuperStart, SuperSeq, EncodeSuper, SealWrites, AfterSeal, AfterHomes, HomeCopies, Apply;
      ghost var s := State();
      if !active || pendLen == 0 {
        NothingToCommit(s);
        ApplyNothing(disk);
        return;
      }
      var n := pendLen;
      var first := if start == 0 then 1 else start;
      WriteSeal(first, n);
      // 3. home blocks
      CopyHomes(first);
      AfterHomesIs(s);
      // 4. advance
      MoveOn(first, n);
      CommitParts(s);
    }

    /** Copies a found transaction to its targets; stops at the first one outside the device. */
    method ReplayHomes(d: Block, first: nat, n: nat) returns (ok: bool)
      requires Fits(disk, base) && n <= MAX_PEND && first + 2 + n <= JOURNAL_BLOCKS && d == disk[base + first]
      modifies this`disk, this`trace
      ensures var t := Targets(TxnWrites(old(disk), base, first, n));
        var ws := Copies(old(disk), base, first, t[..GoodTargets(old(disk), t)]);
        && (ok <==> GoodTargets(old(disk), t) == n)
        && disk == Apply(old(disk), ws) && trace == old(trace) + ws
    {
      hide Copies, Apply;
      ghost var d0, t := disk, Targets(TxnWrites(disk, base, first, n));
      ApplyNothing(d0);
      CopiesNothing(d0, base, first);
      for k := 0 to n
        modifies this`disk, this`trace
        invariant |disk| == |d0|
        invariant forall i :: 0 <= i < k ==> t[i] < |d0|
        invariant disk == Apply(d0, Copies(d0, base, first, t[..k]))
        invariant trace == old(trace) + Copies(d0, base, first, t[..k])
      {
        var db := ReadRaw(base + first + 1 + k);
        ghost var before := disk;
        var done := WriteRaw(R32(d, 16 + 4 * k), db);
        if !done {
          assert t[k] >= |d0|;
          GoodPrefix(d0, t, k);
          return false;
        }
        assert t[..k + 1] == t[..k] + [t[k]];
        CopiesSnoc(d0, base, first, t[..k], t[k]);
      }
      GoodPrefix(d0, t, n);
      return true;
    }

    /** jbd_replay: apply transaction after transaction until none is found. */
    method ReplayLog() returns (ok: bool, ghost done: seq<RawWrite>)
      requires Fits(disk, base) && 1 <= start <= LAST_SLOT
      modifies this`disk, this`trace, this`start, this`seqNo
      ensures |disk| == |old(disk)| && 1 <= start <= LAST_SLOT
      ensures Replay(old(disk), base, old(start), old(seqNo)) == Recovery(done, start, seqNo, ok)
      ensures trace == old(trace) + done && InRange(old(disk), done) && disk == Apply(old(disk), done)
    {
      hide Apply, LiveSeqs, Replay, TxnAt, GoodTargets, RoundWrites, Targets;
      ghost var d0, goal := disk, Replay(disk, base, start, seqNo);
      done := [];
      ApplyNothing(d0);
      while true
        modifies this`disk, this`trace, this`start, this`seqNo
        invariant |disk| == |d0| && 1 <= start <= LAST_SLOT
        invariant InRange(d0, done) && disk == Apply(d0, done) && trace == old(trace) + done
        invariant Prefixed(goal, done, Replay(disk, base, start, seqNo))
        decreases |LiveSeqs(disk, base, seqNo)|
      {
        ghost var d1, s1, q1 := disk, start, seqNo;
        var found, good := ReplayRound();
        if !found {
          ReplayNothing(disk, base, start, seqNo);
          return true, done;
        }
        ReplaySomething(d1, base, s1, q1);
        ApplyConcat(d0, done, RoundWrites(d1, base, s1, q1));
        done := done + RoundWrites(d1, base, s1, q1);
        if !good {
          return false, done;
        }
      }
    }

    /** One round of the replay loop. */
    method ReplayRound() returns (found: bool, good: bool)
      requires Fits(disk, base) && 1 <= start <= LAST_SLOT
      modifies this`disk, this`trace, this`start, this`seqNo
      ensures found <==> TxnAt(old(disk), base, old(start), old(seqNo)).Some?
      ensures !found ==> disk == old(disk) && trace == old(trace)
      ensures found ==>
                && disk == Apply(old(disk), RoundWrites(old(disk), base, old(start), old(seqNo)))
                && trace == old(trace) + RoundWrites(old(disk), base, old(start), old(seqNo))
                && var t := TxnAt(old(disk), base, old(start), old(seqNo)).value;
                   (good <==> GoodTargets(old(disk), Targets(t)) == |t|)
      ensures if found && good
              then start == Advance(old(start), |TxnAt(old(disk), base, old(start), old(seqNo)).value|)
                && Behind(old(start), |TxnAt(old(disk), base, old(start), old(seqNo)).value|, start)
                && seqNo == old(seqNo) + 1
              else start == old(start) && seqNo == old(seqNo)
    {
      hide Apply, Copies, TxnAt, TxnWrites, GoodTargets, Targets;
      var first := if start == 0 then 1 else start;
      good := false;
      var d, n;
      found, d, n := FindSealed(first);
      if found {
        good := ReplayHomes(d, first, n);
        if good {
          start := first + 2 + n;
          if start > JOURNAL_BLOCKS - 1 {
            start := 1;
          }
          seqNo := seqNo + 1;
        }
      }
    }

    /** The checks recovery makes before it believes in a transaction. */
    method FindSealed(first: nat) returns (found: bool, d: Block, n: nat)
      requires Fits(disk, base) && 1 <= first <= LAST_SLOT
      ensures found <==> TxnAt(disk, base, first, seqNo).Some?
      ensures found ==> d == disk[base + first] && n <= MAX_PEND && first + 2 + n <= JOURNAL_BLOCKS
      ensures found ==> TxnAt(disk, base, first, seqNo).value == TxnWrites(disk, base, first, n)
    {
      hide Checksum, TxnWrites;
      found, d, n := false, ZERO_BLOCK, 0;
      if first + 2 > JOURNAL_BLOCKS {
        return;
      }
      d := ReadRaw(base + first);
      if R32(d, 0) != MAGIC || R32(d, 4) != DESC || R32(d, 8) != seqNo {
        return;
      }
      n := R32(d, 12);
      if n > MAX_PEND || first + 2 + n > JOURNAL_BLOCKS {
        return;
      }
      var c := ReadRaw(base + first + 1 + n);
      if R32(c, 0) != MAGIC || R32(c, 4) != COMMIT || R32(c, 8) != seqNo {
        return;
      }
      var chk := LogChecksum(d, first, n);
      found := R32(c, 12) == chk;
    }
  }

  /** What is left to replay, after `done`, is what was to be replayed. */
  ghost predicate Prefixed(goal: Recovery, done: seq<RawWrite>, rest: Recovery) {
    goal == rest.(writes := done + rest.writes)
  }

  lemma GoodPrefix(d: Disk, t: seq<nat>, k: nat)
    requires k <= |t| && (forall i :: 0 <= i < k ==> t[i] < |d|) && (k == |t| || t[k] >= |d|)
    ensures GoodTargets(d, t) == k
  {
  }

  lemma ReplayNothing(d: Disk, base: nat, start: nat, seqNo: nat)
    requires Fits(d, base) && TxnAt(d, base, start, seqNo) == None
    ensures Replay(d, base, start, seqNo) == Recovery([], start, seqNo, true)
  {
  }

  /** The raw writes of one round of recovery. */
  function RoundWrites(d: Disk, base: nat, start: nat, seqNo: nat): (ws: seq<RawWrite>)
    requires Fits(d, base) && TxnAt(d, base, start, seqNo).Some?
    ensures InRange(d, ws)
  {
    var t := Targets(TxnAt(d, base, start, seqNo).value);
    Copies(d, base, start, t[..GoodTargets(d, t)])
  }

  /** One round of recovery, and the measure that bounds the rounds. */
  lemma ReplaySomething(d: Disk, base: nat, start: nat, seqNo: nat)
    requires Fits(d, base) && TxnAt(d, base, start, seqNo).Some?
    ensures var n := |TxnAt(d, base, start, seqNo).value|;
      var m := GoodTargets(d, Targets(TxnAt(d, base, start, seqNo).value));
      var ws := RoundWrites(d, base, start, seqNo);
      && (m < n ==> Replay(d, base, start, seqNo) == Recovery(ws, start, seqNo, false))
      && (m == n ==>
            && |LiveSeqs(Apply(d, ws), base, seqNo + 1)| < |LiveSeqs(d, base, seqNo)|
            && var rest := Replay(Apply(d, ws), base, Advance(start, n), seqNo + 1);
               Replay(d, base, start, seqNo) == rest.(writes := ws + rest.writes))
  {
    hide LiveSeqs;
    var t := TxnAt(d, base, start, seqNo).value;
    if GoodTargets(d, Targets(t)) == |t| {
      assert Targets(t)[..|t|] == Targets(t);
      ReplayProgress(d, base, start, seqNo, Targets(t));
    }
  }

  lemma AfterHomesIs(s: Sys)
    requires WellSized(s) && s.j.pend != [] && s.j.seqNo < U32_LIMIT
    ensures AfterHomes(s.j, s.d) == Apply(AfterSeal(s.j, s.d), HomeCopies(s.j, AfterSeal(s.j, s.d)))
  {
  }

  /** The raw writes that make room for a fresh entry. */
  function RoomWrites(s: Sys): (ws: seq<RawWrite>)
    requires WellSized(s) && s.j.seqNo + 1 < U32_LIMIT
    ensures InRange(s.d, ws)
  {
    if MustCommit(s.j) then CommitWrites(s.j, s.d) else []
  }

  function RoomJbd(j: Jbd): Jbd {
    if MustCommit(j) then CommitJbd(j) else j.(start := BeginStart(j))
  }

  /** The journal state before the entry is added, and where the entry goes. */
  lemma LogFreshJbd(s: Sys, blk: nat, j: Jbd)
    requires WellSized(s) && s.j.seqNo + 1 < U32_LIMIT && !InJournal(s.j.base, blk) && Fresh(s.j, blk)
    requires j == RoomJbd(s.j)
    ensures LogSlot(s.j) == j.start + 1 + |j.pend|
    ensures WriteJbd(s.j, blk) == j.(pend := j.pend + [Pend(blk, LogSlot(s.j))])
  {
  }

  lemma LogFreshParts(s: Sys, blk: nat, buf: Block, head: seq<RawWrite>, d: Disk)
    requires WellSized(s) && s.j.seqNo + 1 < U32_LIMIT && blk < |s.d| && !InJournal(s.j.base, blk) && Fresh(s.j, blk)
    requires head == RoomWrites(s)
    requires d == Apply(s.d, head)
    ensures |d| == |s.d| && s.j.base + LogSlot(s.j) < |s.d|
    ensures WriteWrites(s, blk, buf) == head + [RawWrite(s.j.base + LogSlot(s.j), buf)]
    ensures OpWrites(s, Write(blk, buf)) == head + [RawWrite(s.j.base + LogSlot(s.j), buf)]
    ensures Apply(s.d, OpWrites(s, Write(blk, buf))) == d[s.j.base + LogSlot(s.j) := buf]
  {
    hide CommitWrites, Apply;
    var w := RawWrite(s.j.base + LogSlot(s.j), buf);
    ApplyConcat(s.d, head, [w]);
    ApplyOne(d, w);
  }

  /** The parts of a commit, put together. */
  lemma CommitParts(s: Sys)
    requires WellSized(s) && s.j.pend != [] && s.j.seqNo + 1 < U32_LIMIT
    ensures Apply(s.d, CommitWrites(s.j, s.d)) == AfterCommit(s.j, s.d)
  {
    hide SealWrites, HomeCopies, EncodeSuper;
    var d1 := AfterSeal(s.j, s.d);
    ApplyThree(s.d, SealWrites(s.j, s.d), HomeCopies(s.j, d1), SuperWrite(s.j, AfterHomes(s.j, s.d)));
  }
}
