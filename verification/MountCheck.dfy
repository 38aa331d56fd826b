/** The check that comes before recovery: mount_at wants the checksum of the superblock on the disk to fit
    before it looks at the journal. Where power fails inside the home write of block 0 it may not, and then
    the journal that would repair it is never replayed. */
module MountCheck {
  import opened Bytes
  import opened Collections
  import opened Wrappers
  import Crc
  import opened Disk
  import opened JournalFormat
  import opened Journal
  import opened JournalCrash
  import opened JournalRun
  import opened JournalExact
  import opened Bitmap
  import opened Volume
  import opened FileWrite
  import opened FileCrash

  // ---- a torn superblock ----

  /** Sectors 2 and 3 of block 0 hold the superblock; the first of them is written, the second is not. */
  function Mixed(b: Block, e: Block): (sb: seq<Byte>)
    ensures |sb| == 1024
  {
    SbOf(e)[..512] + SbOf(b)[512..]
  }

  lemma TornSb(b: Block, e: Block, t: nat)
    requires t <= SECTORS
    ensures SbOf(Torn(b, e, t)) == if t <= 2 then SbOf(b) else if t == 3 then Mixed(b, e) else SbOf(e)
  {
    var r := Torn(b, e, t);
    forall i | 0 <= i < 1024
      ensures SbOf(r)[i] == if t <= 2 || (t == 3 && i >= 512) then SbOf(b)[i] else SbOf(e)[i]
    {
      assert r[SB_AT + i] == if SB_AT + i < t * SECTOR then e[SB_AT + i] else b[SB_AT + i];
    }
  }

  lemma RestBytes(b: Block, e: Block)
    requires SameRest(b, e)
    ensures forall i :: 0 <= i < 1024 && !(12 <= i < 20) && !(340 <= i < 344) && !(628 <= i < 632) ==>
              SbOf(e)[i] == SbOf(b)[i]
  {
    forall i | 0 <= i < 1024 && !(12 <= i < 20) && !(340 <= i < 344) && !(628 <= i < 632)
      ensures SbOf(e)[i] == SbOf(b)[i]
    {
      assert SameByte(b, e, SB_AT + i);
    }
  }

  lemma MixedHeader(b: Block, e: Block)
    requires SameRest(b, e)
    ensures SameHeader(SbOf(b), Mixed(b, e)) && R32(Mixed(b, e), 628) == R32(SbOf(b), 628)
  {
    RestBytes(b, e);
    hide SbOf;
  }

  /** The checksum field stays the old one until its sector is written. */
  predicate MixedFits(b: Block, e: Block) { SbSum(Mixed(b, e)) == SbSum(SbOf(b)) }

  /** A torn superblock mounts like a whole one, unless its two sectors are from different times and the
      checksum tells. */
  lemma TornMounts(b: Block, e: Block, t: nat, geo: Geometry)
    requires SameRest(b, e) && Mounts(b, geo) && Mounts(e, geo) && t <= SECTORS
    ensures Mounts(Torn(b, e, t), geo) <==> t != 3 || !geo.csum || MixedFits(b, e)
    ensures !Mounts(Torn(b, e, t), geo) ==> CheckSuper(Torn(b, e, t)) == Err(Io)
  {
    hide R16, R32, Only, HasBit, SbOf, Torn, SbSum, SameRest, Mixed, Mounts;
    TornSb(b, e, t);
    MountsIff(b, geo);
    MountsIff(e, geo);
    MountsIff(Torn(b, e, t), geo);
    MixedHeader(b, e);
  }

  /** If just one of the three counter fields changed, the checksum does tell. */
  lemma OneCounter(b: Block, e: Block, o: nat)
    requires SameRest(b, e) && o in {12, 16, 340}
    requires R32(SbOf(b), o) != R32(SbOf(e), o)
    requires forall f :: f in {12, 16, 340} && f != o ==> R32(SbOf(b), f) == R32(SbOf(e), f)
    ensures !MixedFits(b, e)
  {
    RestBytes(b, e);
    var x, y := SbOf(b)[o..o + 4], SbOf(e)[o..o + 4];
    OtherCounters(b, e, o);
    var l, r := W32(SbOf(b), 628, 0), W32(Mixed(b, e), 628, 0);
    MixedParts(b, e, o);
    if x == y {
      SameField(SbOf(b), SbOf(e), o);
    }
    hide SbOf, W32, Mixed, Crc.Crc32c, Crc.Number;
    Crc.BurstDetected(Crc.ONES, l[..o], x, y, l[o + 4..]);
    NumberTells(Crc.Crc32c(Crc.ONES, l), Crc.Crc32c(Crc.ONES, r));
  }

  lemma SameField(a: seq<Byte>, b: seq<Byte>, o: nat)
    requires |a| == |b| && o + 4 <= |a|
    ensures a[o..o + 4] == b[o..o + 4] <==> R32(a, o) == R32(b, o)
  {
    var x, y := a[o..o + 4], b[o..o + 4];
    assert x[0] == a[o] && x[1] == a[o + 1] && x[2] == a[o + 2] && x[3] == a[o + 3];
    assert y[0] == b[o] && y[1] == b[o + 1] && y[2] == b[o + 2] && y[3] == b[o + 3];
    if R32(a, o) == R32(b, o) {
      var p, q := a[o + 2] as int + 256 * a[o + 3] as int, b[o + 2] as int + 256 * b[o + 3] as int;
      OneDigit(a[o], b[o], a[o + 1] as int + 256 * p, b[o + 1] as int + 256 * q);
      OneDigit(a[o + 1], b[o + 1], p, q);
      OneDigit(a[o + 2], b[o + 2], a[o + 3], b[o + 3]);
    }
  }

  lemma OneDigit(a: Byte, b: Byte, p: int, q: int)
    requires a as int + 256 * p == b as int + 256 * q
    ensures a == b && p == q
  {
  }

  lemma NumberTells(v: Crc.Word, w: Crc.Word)
    requires v != w
    ensures Crc.Number(v) != Crc.Number(w)
  {
    if Crc.Value(v) == Crc.Value(w) {
      Crc.ValueInjective(v, w);
    }
  }

  /** The other fields have the same bytes. */
  lemma OtherCounters(b: Block, e: Block, o: nat)
    requires o in {12, 16, 340}
    requires forall f :: f in {12, 16, 340} && f != o ==> R32(SbOf(b), f) == R32(SbOf(e), f)
    ensures forall i :: (12 <= i < 20 || 340 <= i < 344) && !(o <= i < o + 4) ==> SbOf(b)[i] == SbOf(e)[i]
  {
    hide R32, SbOf;
    var x, y := SbOf(b), SbOf(e);
    SameField(x, y, 12);
    SameField(x, y, 16);
    SameField(x, y, 340);
    forall i | (12 <= i < 20 || 340 <= i < 344) && !(o <= i < o + 4)
      ensures x[i] == y[i]
    {
      var f := if i < 16 then 12 else if i < 20 then 16 else 340;
      assert x[f..f + 4][i - f] == x[i] && y[f..f + 4][i - f] == y[i];
    }
  }

  /** What is summed differs in those four bytes only. */
  lemma MixedParts(b: Block, e: Block, o: nat)
    requires o in {12, 16, 340}
    requires forall i :: 0 <= i < 512 && !(o <= i < o + 4) ==> SbOf(e)[i] == SbOf(b)[i]
    ensures var l, r := W32(SbOf(b), 628, 0), W32(Mixed(b, e), 628, 0);
      l == l[..o] + SbOf(b)[o..o + 4] + l[o + 4..] && r == l[..o] + SbOf(e)[o..o + 4] + l[o + 4..]
  {
    var l, r := W32(SbOf(b), 628, 0), W32(Mixed(b, e), 628, 0);
    hide SbOf, R32;
    var x := l[..o] + SbOf(e)[o..o + 4] + l[o + 4..];
    forall i | 0 <= i < 1024
      ensures r[i] == x[i]
    {
    }
    assert l == l[..o] + SbOf(b)[o..o + 4] + l[o + 4..];
  }

  // ---- block 0 of the disk when power fails ----

  /** The home write of block 0 is number `k` of the commit. */
  predicate AtSuper(j: Jbd, k: nat) { k >= 2 && k - 2 < |j.pend| && j.pend[k - 2].blk == 0 }

  /** It was made before number `k`. */
  predicate PastSuper(j: Jbd, k: nat) { exists x :: 0 <= x < |j.pend| && x + 2 < k && j.pend[x].blk == 0 }

  lemma {:induction false} DistinctApply(d: Disk, w: seq<RawWrite>, x: nat)
    requires InRange(d, w) && x < |w| && forall y :: 0 <= y < |w| && y != x ==> w[y].blk != w[x].blk
    ensures Apply(d, w)[w[x].blk] == w[x].data
  {
    ApplyHit(d, w, x);
  }

  lemma DistinctCrash(d: Disk, w: seq<RawWrite>, k: nat, t: nat, x: nat)
    requires InRange(d, w) && k <= |w| && t <= SECTORS && x < |w|
    requires forall y :: 0 <= y < |w| && y != x ==> w[y].blk != w[x].blk
    ensures Crash(d, w, k, t)[w[x].blk] ==
            if k < x then d[w[x].blk] else if k == x then Torn(d[w[x].blk], w[x].data, t) else w[x].data
  {
    hide Apply;
    if k <= x {
      ApplyFrame(d, w[..k], w[x].blk);
    } else {
      assert w[..k][x] == w[x];
      DistinctApply(d, w[..k], x);
    }
  }

  /** During a commit block 0 has its old contents up to its home write, the new ones from then on. */
  lemma CommitBlockZero(m: Sys, k: nat, t: nat)
    requires WellSized(m) && Layout(m.j) && m.j.seqNo + 1 < U32_LIMIT && m.j.base > 0
    requires k <= |CommitWrites(m.j, m.d)| && t <= SECTORS
    ensures Crash(m.d, CommitWrites(m.j, m.d), k, t)[0] ==
            if AtSuper(m.j, k) then Torn(m.d[0], View(m)[0], t)
            else if PastSuper(m.j, k) then View(m)[0] else m.d[0]
  {
    hide EncodeDesc, EncodeCommit, EncodeSuper, Checksum, SealWrites, CommitWrites, Crash, OpenTxn, SealedDisk, View,
         Torn;
    if m.j.pend == [] {
      NothingToCommit(m);
      ApplyNothing(m.d);
      NothingCrashes(m.d, t);
    } else {
      CommitCrashCases(m, k, t);
      if k < 2 {
        SealKeepsZero(m, k, t);
      } else if k - 2 < |m.j.pend| {
        HomesZero(m, k - 2, t);
      } else {
        SuperKeepsZero(m, k - 2 - |m.j.pend|, t);
      }
    }
  }

  lemma NothingCrashes(d: Disk, t: nat)
    requires t <= SECTORS
    ensures Crash(d, [], 0, t) == d
  {
  }

  lemma SealKeepsZero(m: Sys, k: nat, t: nat)
    requires WellSized(m) && Layout(m.j) && m.j.pend != [] && m.j.seqNo + 1 < U32_LIMIT && m.j.base > 0
    requires k < 2 && t <= SECTORS
    ensures Crash(m.d, SealWrites(m.j, m.d), k, t)[0] == m.d[0]
  {
    hide EncodeDesc, EncodeCommit, Checksum, Crash;
    CrashFrame(m.d, SealWrites(m.j, m.d), k, t, 0);
  }

  lemma HomesZero(m: Sys, k: nat, t: nat)
    requires WellSized(m) && Layout(m.j) && m.j.pend != [] && m.j.seqNo + 1 < U32_LIMIT && m.j.base > 0
    requires k <= |m.j.pend| && t <= SECTORS
    ensures InRange(SealedDisk(m), OpenTxn(m))
    ensures Crash(SealedDisk(m), OpenTxn(m), k, t)[0] ==
            if AtSuper(m.j, k + 2) then Torn(m.d[0], View(m)[0], t)
            else if PastSuper(m.j, k + 2) then View(m)[0] else m.d[0]
  {
    hide EncodeDesc, EncodeCommit, Checksum, Crash, SealedDisk, Torn, View, OpenTxn;
    OpenTxnClean(m);
    SealKeepsHome(m, 0);
    if x :| 0 <= x < |m.j.pend| && m.j.pend[x].blk == 0 {
      ZeroPending(m, x, k);
      DistinctCrash(SealedDisk(m), OpenTxn(m), k, t, x);
    } else {
      CrashFrame(SealedDisk(m), OpenTxn(m), k, t, 0);
    }
  }

  /** Where block 0 is pending, and with what contents. */
  lemma ZeroPending(m: Sys, x: nat, k: nat)
    requires WellSized(m) && Layout(m.j) && m.j.base > 0 && x < |m.j.pend| && m.j.pend[x].blk == 0
    ensures |m.d| > 0 && OpenTxn(m)[x] == RawWrite(0, View(m)[0])
    ensures forall y :: 0 <= y < |OpenTxn(m)| && y != x ==> OpenTxn(m)[y].blk != OpenTxn(m)[x].blk
    ensures (AtSuper(m.j, k + 2) <==> x == k) && (PastSuper(m.j, k + 2) <==> x < k)
  {
    FindHome(m.j, x);
  }

  lemma SuperKeepsZero(m: Sys, k: nat, t: nat)
    requires WellSized(m) && Layout(m.j) && m.j.pend != [] && m.j.seqNo + 1 < U32_LIMIT && m.j.base > 0
    requires k <= 1 && t <= SECTORS
    ensures SuperCrash(m, k, t)[0] ==
            if PastSuper(m.j, k + 2 + |m.j.pend|) then View(m)[0] else m.d[0]
  {
    hide EncodeSuper, Crash, SealedDisk, Torn, View, OpenTxn, Apply, HomesDone;
    CrashFrame(HomesDone(m), [SuperWrite(m.j, m.d)], k, t, 0);
    HomesZero(m, |m.j.pend|, 0);
    WholeCrash(m);
  }

  lemma WholeCrash(m: Sys)
    requires WellSized(m) && Layout(m.j) && m.j.pend != [] && m.j.seqNo + 1 < U32_LIMIT
    ensures InRange(SealedDisk(m), OpenTxn(m)) && Crash(SealedDisk(m), OpenTxn(m), |m.j.pend|, 0) == HomesDone(m)
  {
    hide EncodeDesc, EncodeCommit, Checksum, SealedDisk;
    OpenTxnClean(m);
    assert OpenTxn(m)[..|m.j.pend|] == OpenTxn(m);
  }

  /** Logging a block leaves block 0 of the disk alone. */
  lemma LogKeepsZero(m: Sys, T: seq<Txn>, blk: nat, buf: Block, k: nat, t: nat)
    requires Inv(m, T) && SafeWrite(m, T, blk, buf) && !Forces(m.j, blk) && m.j.seqNo + 1 < U32_LIMIT
    requires k <= |WriteWrites(m, blk, buf)| && t <= SECTORS && m.j.base > 0
    ensures Crash(m.d, WriteWrites(m, blk, buf), k, t)[0] == m.d[0]
  {
    hide Chain, CommitFrom, InFoot, WriteWrites, WriteJbd, LogSlot, FindPend, SuperStart, SuperSeq, Quiet, OpenIsFree;
    LogBlockFacts(m, T, blk, buf);
    CrashFrame(m.d, WriteWrites(m, blk, buf), k, t, 0);
  }

  /** The command as it is after its first `i` block writes. */
  lemma InsideCommand(s: Sys, ws: seq<BlockWrite>, i: nat)
    requires CommandReady(s, ws) && |BlocksOf(ws)| <= Capacity(s.j.start) && i <= |ws|
    ensures WellSized(s) && s.j.seqNo + 2 < U32_LIMIT && forall n :: 0 <= n < |ws| ==> ws[n].blk < |s.d|
    ensures var m := ExecWrites(s, ws[..i]);
      && Inv(m, BacklogOf(s)) && m.j.base == s.j.base && m.j.seqNo == s.j.seqNo && |m.d| == |s.d|
      && Home(m.d, s.j.base) == Home(s.d, s.j.base) && View(m) == Overwrite(Home(s.d, s.j.base), ws[..i])
      && (forall b :: b in BlocksOf(ws[..i]) <==> IsHome(m.j, b))
      && (i < |ws| ==> !Forces(m.j, ws[i].blk) && SafeOp(m, BacklogOf(s), Write(ws[i].blk, ws[i].buf)))
  {
    hide Good, Home, View, CommitFrom, Exec, Inv, BlocksOf, BacklogOf, Capacity, ExecWrites, IsHome, Overwrite, Forces,
         SafeOp;
    ReadyPrefix(s, ws, i);
    FittingStaysUnsplit(s, ws[..i]);
    if i < |ws| {
      ReadyPrefix(s, ws, i + 1);
      assert ws[..i + 1][..i] == ws[..i];
      UnsplitStep(s, ExecWrites(s, ws[..i]), ws[..i + 1]);
    }
  }

  /** Block 0 of the disk at every failure point of a command: torn only inside its home write. */
  lemma CutBlockZero(s: Sys, ws: seq<BlockWrite>, d0: Disk, d: Disk, i: nat, k: nat, t: nat)
    requires OneTransaction(s, ws, d0, d) && i <= |ws| && t <= SECTORS && s.j.base > 0
    ensures forall n :: 0 <= n < |ws| ==> ws[n].blk < |s.d|
    ensures WellSized(s) && s.j.seqNo + 1 < U32_LIMIT && |d0| == |d| == |s.d| > 0
    ensures var m := ExecWrites(s, ws[..i]);
      && WellSized(m) && m.j.seqNo + 1 < U32_LIMIT
      && (k <= |OpWrites(m, CommandOp(ws, i))| ==>
            Crash(m.d, OpWrites(m, CommandOp(ws, i)), k, t)[0] ==
            if i == |ws| && AtSuper(m.j, k) then Torn(d0[0], d[0], t)
            else if i == |ws| && PastSuper(m.j, k) then d[0] else d0[0])
  {
    hide Good, CommitFrom, Exec, BlocksOf, BacklogOf, Capacity, ExecWrites, Overwrite, CommandReady, Crash, RingOf,
         Avoids, ClearOf, WriteWrites, CommitWrites, View, Torn, AtSuper, PastSuper, Backlog, OpenIsFree, Quiet,
         PlainPayloads, IsHome, Layout, SafeWrite, Forces;
    TransactionReady(s, ws, d0, d);
    InsideCommand(s, ws, i);
    var m := ExecWrites(s, ws[..i]);
    ZeroHome(s, m);
    if k <= |OpWrites(m, CommandOp(ws, i))| {
      if i < |ws| {
        LogKeepsZero(m, BacklogOf(s), ws[i].blk, ws[i].buf, k, t);
      } else {
        assert ws[..|ws|] == ws;
        CommitBlockZero(m, k, t);
      }
    }
  }

  lemma ZeroHome(s: Sys, m: Sys)
    requires |m.d| == |s.d| > 0 && s.j.base > 0 && Home(m.d, s.j.base) == Home(s.d, s.j.base)
    ensures m.d[0] == s.d[0] == Home(s.d, s.j.base)[0]
  {
    assert Home(m.d, s.j.base)[0] == m.d[0];
  }

  // ---- when exactly the mount is refused ----

  /** Power failed there: the home write of block 0 stopped between the two sectors of the superblock. */
  predicate Splits(j: Jbd, k: nat, t: nat) { AtSuper(j, k) && t == 3 }

  /** After a power failure anywhere in a command on a volume with checksums, mount_at goes on to the journal
      exactly unless the superblock was split and its old checksum does not fit the mixture. Then it
      answers Io, now and ever after: the journal is never replayed. */
  lemma CutMounts(s: Sys, ws: seq<BlockWrite>, d0: Disk, d: Disk, geo: Geometry, i: nat, k: nat, t: nat)
    requires OneTransaction(s, ws, d0, d) && i <= |ws| && t <= SECTORS && s.j.base > 0 && |d0| > 0 && |d| > 0
    requires Mounts(d0[0], geo) && Mounts(d[0], geo) && SameRest(d0[0], d[0])
    ensures WellSized(s) && s.j.seqNo + 1 < U32_LIMIT && forall n :: 0 <= n < |ws| ==> ws[n].blk < |s.d|
    ensures CrashOf(s, ws, i, 0, t).Some?
    ensures var c, j := CrashOf(s, ws, i, k, t), ExecWrites(s, ws[..i]).j;
      c.Some? ==>
        && |c.value| > 0
        && (Mounts(c.value[0], geo) <==>
            !(i == |ws| && Splits(j, k, t) && geo.csum && !MixedFits(d0[0], d[0])))
        && (!Mounts(c.value[0], geo) ==> CheckSuper(c.value[0]) == Err(Io))
  {
    hide ExecWrites, OneTransaction, Crash, OpWrites, Mounts, SameRest, AtSuper, PastSuper, Torn, MixedFits, CheckSuper,
         WellSized;
    CutBlockZero(s, ws, d0, d, i, k, t);
    TornMounts(d0[0], d[0], t, geo);
  }

  /** Every command that writes block 0 has such a point. */
  lemma HalfSuperPoint(s: Sys, ws: seq<BlockWrite>, d0: Disk, d: Disk) returns (k: nat)
    requires OneTransaction(s, ws, d0, d) && 0 in BlocksOf(ws)
    ensures WellSized(s) && s.j.seqNo + 1 < U32_LIMIT && forall n :: 0 <= n < |ws| ==> ws[n].blk < |s.d|
    ensures CrashOf(s, ws, |ws|, k, 3).Some? && Splits(ExecWrites(s, ws[..|ws|]).j, k, 3)
  {
    hide Good, CommitFrom, Exec, BlocksOf, BacklogOf, Capacity, ExecWrites, Overwrite, CommandReady, Crash, RingOf,
         Avoids, ClearOf, CommitWrites, View, Home, Backlog, OpenIsFree, Quiet, PlainPayloads, SealWrites, OpenTxn;
    TransactionReady(s, ws, d0, d);
    InsideCommand(s, ws, |ws|);
    assert ws[..|ws|] == ws;
    var m := ExecWrites(s, ws[..|ws|]);
    assert IsHome(m.j, 0);
    var x :| 0 <= x < |m.j.pend| && m.j.pend[x].blk == 0;
    CommitShape(m);
    k := x + 2;
  }
}
