/** The file system on the journal: a rewrite of a file, committed as one command, survives a power
    failure at any moment as the whole old file or the whole new one. */
module FileCrash {
  import opened Bytes
  import opened Collections
  import opened Wrappers
  import opened Disk
  import opened JournalFormat
  import opened Journal
  import opened JournalCrash
  import opened JournalRun
  import opened JournalExact
  import opened Volume
  import opened Inodes
  import opened Files
  import opened FileSystem
  import opened FreeSpace
  import opened FileWrite
  import opened Mkfs
  import opened Format

  /** The journal has nothing pending and does not need the unrecorded wrap. */
  ghost predicate JournalIdle(s: Sys) {
    Good(s) && s.j.pend == [] && s.j.start + 2 <= LAST_SLOT && s.j.seqNo + 2 < U32_LIMIT
  }

  /** No payload can be taken for a commit block of this transaction or a later one. */
  predicate PlainPayloads(s: Sys, ws: seq<BlockWrite>) {
    forall i :: 0 <= i < |ws| ==> !CommitFrom(ws[i].buf, s.j.seqNo)
  }

  // ---- counting the blocks of a rewrite ----

  function Bitmaps(n: nat): (s: set<nat>)
    ensures forall g: nat :: g < n ==> BitmapBlock(g) in s
    ensures |s| <= n
  {
    if n == 0 then {} else Bitmaps(n - 1) + {BitmapBlock(n - 1)}
  }

  lemma AcctIs(geo: Geometry, b: nat)
    requires ValidGeo(geo) && IsAcct(b) && b < geo.total
    ensures IsMeta(b) && b in {0, 1} + Bitmaps(geo.groups)
  {
    if b > 1 {
      BlockParts(b);
      InGroup(geo, b);
      assert b == BitmapBlock(GroupOf(b));
    }
  }

  /** At most the two boot blocks, a bitmap for each group, the inode's block and the new blocks. */
  lemma FewBlocks(geo: Geometry, now: set<nat>, q: seq<nat>, x: nat)
    requires ValidGeo(geo) && OnlyWrote({}, now, Elems(q) + {x}) && forall b :: b in now ==> b < geo.total
    ensures |now| <= geo.groups + 3 + |q|
  {
    hide IsAcct, BitmapBlock;
    var all := {0, 1} + Bitmaps(geo.groups) + (Elems(q) + {x});
    forall b | b in now
      ensures b in all
    {
      if IsAcct(b) {
        AcctIs(geo, b);
      }
    }
    SubsetSize(now, all);
    ElemsSize(q);
    assert |all| <= |{0, 1} + Bitmaps(geo.groups)| + |Elems(q) + {x}|;
  }

  // ---- a command on the journal ----

  /** The blocks of the journal area. */
  function RingOf(base: nat): set<nat> { Elems(Consecutive(base, JOURNAL_BLOCKS)) }

  lemma RingMember(base: nat, b: nat)
    ensures InJournal(base, b) ==> b in RingOf(base)
  {
    if InJournal(base, b) {
      assert Consecutive(base, JOURNAL_BLOCKS)[b - base] == b;
    }
  }

  /** The disk when power fails after `k` raw writes, and `t` sectors of the next, of step `i` of the
      command: a block write, or the commit after the last one. None if the step makes fewer writes. */
  ghost function CrashOf(s: Sys, ws: seq<BlockWrite>, i: nat, k: nat, t: nat): Option<Disk>
    requires WellSized(s) && s.j.seqNo + 1 < U32_LIMIT && i <= |ws| && t <= SECTORS
    requires forall n :: 0 <= n < |ws| ==> ws[n].blk < |s.d|
  {
    var m := ExecWrites(s, ws[..i]);
    if WellSized(m) && m.j.seqNo + 1 < U32_LIMIT && k <= |OpWrites(m, CommandOp(ws, i))|
    then Some(Crash(m.d, OpWrites(m, CommandOp(ws, i)), k, t)) else None
  }

  /** Power failing at that point recovers to the home blocks `d0` or, only inside the commit, to `d`. */
  ghost predicate Survives(s: Sys, ws: seq<BlockWrite>, d0: Disk, d: Disk, i: nat, k: nat, t: nat) {
    && WellSized(s) && s.j.seqNo + 1 < U32_LIMIT && i <= |ws| && t <= SECTORS
    && (forall n :: 0 <= n < |ws| ==> ws[n].blk < |s.d|)
    && CrashOf(s, ws, i, 0, t).Some?
    && var c := CrashOf(s, ws, i, k, t);
       c.Some? ==> RecoversTo(c.value, s.j.base, d0) || (i == |ws| && RecoversTo(c.value, s.j.base, d))
  }

  /** A command whose block writes `ws` go through the journal and are committed once, stay out of
      the journal area and fit one transaction. */
  ghost predicate OneTransaction(s: Sys, ws: seq<BlockWrite>, d0: Disk, d: Disk) {
    && JournalIdle(s) && PlainPayloads(s, ws) && d0 == Home(s.d, s.j.base) && d == Overwrite(d0, ws)
       && |d0| <= U32_LIMIT
    && (forall b :: b in BlocksOf(ws) ==> b < |d0|)
    && Avoids({}, BlocksOf(ws), RingOf(s.j.base)) && |BlocksOf(ws)| <= Capacity(s.j.start) && ClearOf(s, |BlocksOf(ws)|)
  }

  /** Such a command is atomic: wherever power fails, at any raw write, torn or not, recovery finds
      the disk from before it or the disk from after it. */
  lemma CommandSurvives(s: Sys, ws: seq<BlockWrite>, d0: Disk, d: Disk, i: nat, k: nat, t: nat)
    requires OneTransaction(s, ws, d0, d) && i <= |ws| && t <= SECTORS
    ensures Survives(s, ws, d0, d, i, k, t)
  {
    hide Good, Home, Crash, RecoversTo, OpWrites, ExecWrites, Overwrite, Capacity, CommitFrom, BlocksOf, BacklogOf,
         CommandReady;
    TransactionReady(s, ws, d0, d);
    GoodIsSized(s);
    CommandAtomic(s, ws, i, k, t);
    CommandAtomic(s, ws, i, 0, t);
  }

  lemma TransactionReady(s: Sys, ws: seq<BlockWrite>, d0: Disk, d: Disk)
    requires OneTransaction(s, ws, d0, d)
    ensures CommandReady(s, ws) && |s.d| == |d0| && forall n :: 0 <= n < |ws| ==> ws[n].blk < |s.d|
  {
    hide Good, Home, Overwrite, Capacity, CommitFrom, BlocksOf, BacklogOf, RingOf, InJournal;
    forall n | 0 <= n < |ws|
      ensures ws[n].blk < |s.d| && ws[n].blk < U32_LIMIT && !InJournal(s.j.base, ws[n].blk)
    {
      HasBlock(ws, n);
      RingMember(s.j.base, ws[n].blk);
    }
  }

  lemma HasBlock(ws: seq<BlockWrite>, n: nat)
    requires n < |ws|
    ensures ws[n].blk in BlocksOf(ws)
  {
  }

  // ---- rewriting a file ----

  lemma FsFits(d: Disk, geo: Geometry, csum: bool, files: FileMap)
    requires FsOk(d, geo, csum, files)
    ensures ValidGeo(geo) && geo.total <= |d| && geo.total <= U32_LIMIT && csum == geo.csum
  {
    hide GroupOk, InodesOk, MetaUsed;
  }

  /** The journal's blocks are no business of another inode. */
  lemma RingKept(d: Disk, geo: Geometry, csum: bool, files: FileMap, base: nat, ino: nat)
    requires FsOk(d, geo, csum, files) && JOURNAL_INO in files
      && files[JOURNAL_INO] == Consecutive(base, JOURNAL_BLOCKS)
    requires ino != JOURNAL_INO
    ensures RingOf(base) <= Kept(files, ino) && DataOnly(geo, Kept(files, ino))
  {
    KeptFacts(d, geo, csum, files, ino);
  }

  /** Rewriting a file is atomic under power failure. The volume `d0` is what the device's home
      blocks say, and the command's block writes `ws` turned it into `d`. If the file's blocks leave
      room for the metadata in one transaction, then a failure at any raw write, torn or not,
      recovers to `d0`, on which every file is as before, or to `d`. */
  lemma RewriteIsAtomic(s: Sys, ws: seq<BlockWrite>, d0: Disk, d: Disk, geo: Geometry, csum: bool, files: FileMap,
                        ino: nat,
                        w: seq<nat>, i: nat, k: nat, t: nat)
    requires JournalIdle(s) && PlainPayloads(s, ws)
    requires d0 == Home(s.d, s.j.base) && |d0| == geo.total && d == Overwrite(d0, ws)
    requires FsOk(d0, geo, csum, files) && ino != JOURNAL_INO && IsIno(geo, ino)
    requires JOURNAL_INO in files && files[JOURNAL_INO] == Consecutive(s.j.base, JOURNAL_BLOCKS)
    requires OnlyWrote({}, BlocksOf(ws), Elems(w) + {InodeBlock(ino)})
      && forall b :: b in BlocksOf(ws) ==> b < geo.total
    requires OwnNew(geo, files, ino, w) && geo.groups + 3 + |w| <= Capacity(s.j.start) && i <= |ws| && t <= SECTORS
    requires ClearOf(s, geo.groups + 3 + |w|)
    ensures Survives(s, ws, d0, d, i, k, t)
  {
    hide *;
    RewriteFits(s, ws, d0, d, geo, csum, files, ino, w);
    CommandSurvives(s, ws, d0, d, i, k, t);
  }

  lemma RewriteFits(s: Sys, ws: seq<BlockWrite>, d0: Disk, d: Disk, geo: Geometry, csum: bool, files: FileMap,
                    ino: nat, w: seq<nat>)
    requires JournalIdle(s) && PlainPayloads(s, ws)
    requires d0 == Home(s.d, s.j.base) && |d0| == geo.total && d == Overwrite(d0, ws)
    requires FsOk(d0, geo, csum, files) && ino != JOURNAL_INO && IsIno(geo, ino)
    requires JOURNAL_INO in files && files[JOURNAL_INO] == Consecutive(s.j.base, JOURNAL_BLOCKS)
    requires OnlyWrote({}, BlocksOf(ws), Elems(w) + {InodeBlock(ino)})
      && forall b :: b in BlocksOf(ws) ==> b < geo.total
    requires OwnNew(geo, files, ino, w) && geo.groups + 3 + |w| <= Capacity(s.j.start)
      && ClearOf(s, geo.groups + 3 + |w|)
    ensures OneTransaction(s, ws, d0, d)
  {
    assert ino >= 1;
    hide FsOk, JournalIdle, PlainPayloads, Home, OnlyWrote, Overwrite, Capacity, InodeBlock, IsIno, Elems, BlocksOf,
         ValidGeo, Kept, DataList, RingOf, Avoids, DataOnly, OwnNew, ClearOf, Consecutive, IsMeta, IsAcct, InodeGroup,
         InodeIndex, Fits;
    FsFits(d0, geo, csum, files);
    InoIs(geo, ino);
    FewBlocks(geo, BlocksOf(ws), w, InodeBlock(ino));
    ClearLess(s, |BlocksOf(ws)|, geo.groups + 3 + |w|);
    RingKept(d0, geo, csum, files, s.j.base, ino);
    OwnApart(geo, files, ino, w);
    OnlyWroteAvoids({}, BlocksOf(ws), Elems(w), InodeBlock(ino), geo, Kept(files, ino));
    AvoidsLess({}, BlocksOf(ws), Kept(files, ino), RingOf(s.j.base));
  }

  lemma ClearLess(s: Sys, m: nat, n: nat)
    requires Fits(s.d, s.j.base) && ClearOf(s, n) && m <= n
    ensures ClearOf(s, m)
  {
    hide InFoot, BacklogOf;
  }

  /** write_file on an idle journal, from the first block write to the commit: the file gets its new
      contents, or is emptied for lack of blocks or extents, and a power failure anywhere on the way
      leaves every file as before the command or as after it. */
  method RewriteSafely(d0: Disk, geo: Geometry, csum: bool, ino: nat, existing: bool, data: seq<Byte>,
                       ghost files: FileMap, ghost s: Sys)
    returns (v: Device, err: Option<FsErr>, ghost q: seq<nat>)
    requires JournalIdle(s) && d0 == Home(s.d, s.j.base) && |d0| == geo.total <= U32_LIMIT
    requires FsOk(d0, geo, csum, files) && IsIno(geo, ino) && InoUsed(d0, ino) && (existing <==> ino in files)
      && |data| < U32_LIMIT
    requires JOURNAL_INO in files && files[JOURNAL_INO] == Consecutive(s.j.base, JOURNAL_BLOCKS) && ino != JOURNAL_INO
    requires geo.groups + 3 + NumBlocks(|data|) <= Capacity(s.j.start) && ClearOf(s, geo.groups + 3 + NumBlocks(|data|))
    ensures fresh(v) && Rewritten(d0, v.d, geo, csum, files, ino, q, if err.None? then data else [])
    ensures err == Outcome(FreeList(UsedSet(d0, geo) - Elems(OldBlocks(files, ino)), geo.total), NumBlocks(|data|))
    ensures PlainPayloads(s, v.log) ==>
              forall i: nat, k: nat, t: nat :: i <= |v.log| && t <= SECTORS ==> Survives(s, v.log, d0, v.d, i, k, t)
  {
    hide FsOk, JournalIdle, PlainPayloads, Survives, Home, OnlyWrote, Overwrite, Capacity, InodeBlock, IsIno, InoUsed,
         Elems, BlocksOf, Rewritten, Outcome, FreeList, UsedSet, OwnNew, OldBlocks;
    FsFits(d0, geo, csum, files);
    v := new Device(d0, geo, false);
    NoneWritten();
    ghost var lost, w;
    err, q, lost, w := WriteData(v, ino, existing, data, files);
    if PlainPayloads(s, v.log) {
      forall i: nat, k: nat, t: nat | i <= |v.log| && t <= SECTORS
        ensures Survives(s, v.log, d0, v.d, i, k, t)
      {
        RewriteIsAtomic(s, v.log, d0, v.d, geo, csum, files, ino, w, i, k, t);
      }
    }
  }

  lemma NoneWritten()
    ensures BlocksOf([]) == {}
  {
  }
}
