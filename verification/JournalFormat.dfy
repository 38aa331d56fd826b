/** The journal's blocks: superblock, descriptor, commit block. */
module JournalFormat {
  import opened Bytes
  import opened Disk
  import Crc

  const JOURNAL_BLOCKS: nat := 1024
  const LAST_SLOT: nat := 1023
  const MAX_PEND: nat := 1020
  const MAGIC: nat := 0xC03B_3998
  const DESC: nat := 2
  const COMMIT: nat := 3

  /** The checksum register after a descriptor block and the data blocks. */
  function ChecksumFrom(c: Crc.Word, data: seq<Block>): Crc.Word
    decreases |data|
  {
    if data == [] then c
    else Crc.Crc32c(ChecksumFrom(c, data[..|data| - 1]), data[|data| - 1])
  }

  function Checksum(desc: Block, data: seq<Block>): (v: nat)
    ensures v < U32_LIMIT
  {
    Crc.Number(ChecksumFrom(Crc.Crc32c(Crc.ONES, desc), data))
  }

  // ---- descriptor ----

  predicate IsDesc(b: Block, seqNo: nat) {
    R32(b, 0) == MAGIC && R32(b, 4) == DESC && R32(b, 8) == seqNo
  }

  predicate IsU32s(blks: seq<nat>) {
    forall k :: 0 <= k < |blks| ==> blks[k] < U32_LIMIT
  }

  function DescHeader(seqNo: nat, n: nat): Block
    requires seqNo < U32_LIMIT && n <= MAX_PEND
  {
    W32(W32(W32(W32(ZERO_BLOCK, 0, MAGIC), 4, DESC), 8, seqNo), 12, n)
  }

  /** The target list, written number by number. */
  function PutNumbers(b: Block, blks: seq<nat>): Block
    requires |blks| <= MAX_PEND && IsU32s(blks)
    decreases |blks|
  {
    if blks == [] then b
    else
      var m := |blks| - 1;
      W32(PutNumbers(b, blks[..m]), 16 + 4 * m, blks[m])
  }

  function EncodeDesc(seqNo: nat, blks: seq<nat>): Block
    requires seqNo < U32_LIMIT && |blks| <= MAX_PEND && IsU32s(blks)
  {
    PutNumbers(DescHeader(seqNo, |blks|), blks)
  }

  lemma {:induction false} PutNumbersReads(b: Block, blks: seq<nat>)
    requires |blks| <= MAX_PEND && IsU32s(blks)
    ensures forall i :: 0 <= i < 16 ==> PutNumbers(b, blks)[i] == b[i]
    ensures forall k :: 0 <= k < |blks| ==> R32(PutNumbers(b, blks), 16 + 4 * k) == blks[k]
    decreases |blks|
  {
    if blks != [] {
      var m := |blks| - 1;
      PutNumbersReads(b, blks[..m]);
      var p := PutNumbers(b, blks[..m]);
      forall k | 0 <= k < |blks|
        ensures R32(PutNumbers(b, blks), 16 + 4 * k) == blks[k]
      {
        if k < m {
          assert R32(p, 16 + 4 * k) == blks[..m][k];
        }
      }
    }
  }

  lemma DescHeaderReads(seqNo: nat, n: nat)
    requires seqNo < U32_LIMIT && n <= MAX_PEND
    ensures IsDesc(DescHeader(seqNo, n), seqNo) && R32(DescHeader(seqNo, n), 12) == n
  {
    var a := W32(ZERO_BLOCK, 0, MAGIC);
    var b := W32(a, 4, DESC);
    var c := W32(b, 8, seqNo);
    var d := W32(c, 12, n);
    assert R32(d, 0) == R32(c, 0) == R32(b, 0) == R32(a, 0);
    assert R32(d, 4) == R32(c, 4) == R32(b, 4);
    assert R32(d, 8) == R32(c, 8);
  }

  /** Reading back a descriptor block gives exactly what was encoded. */
  lemma DescRoundTrip(seqNo: nat, blks: seq<nat>)
    requires seqNo < U32_LIMIT && |blks| <= MAX_PEND && IsU32s(blks)
    ensures IsDesc(EncodeDesc(seqNo, blks), seqNo)
    ensures R32(EncodeDesc(seqNo, blks), 12) == |blks|
    ensures forall k :: 0 <= k < |blks| ==> R32(EncodeDesc(seqNo, blks), 16 + 4 * k) == blks[k]
  {
    var h := DescHeader(seqNo, |blks|);
    DescHeaderReads(seqNo, |blks|);
    PutNumbersReads(h, blks);
  }

  // ---- commit block ----

  predicate IsCommit(b: Block, seqNo: nat) {
    R32(b, 0) == MAGIC && R32(b, 4) == COMMIT && R32(b, 8) == seqNo
  }

  /** The block has a commit header carrying a sequence number of at least `seqNo`. */
  predicate CommitFrom(b: Block, seqNo: nat) {
    R32(b, 0) == MAGIC && R32(b, 4) == COMMIT && R32(b, 8) >= seqNo
  }

  function EncodeCommit(seqNo: nat, chk: nat, n: nat): Block
    requires seqNo < U32_LIMIT && chk < U32_LIMIT && n <= MAX_PEND
  {
    W32(W32(W32(W32(W32(ZERO_BLOCK, 0, MAGIC), 4, COMMIT), 8, seqNo), 12, chk), 16, n)
  }

  lemma CommitRoundTrip(seqNo: nat, chk: nat, n: nat)
    requires seqNo < U32_LIMIT && chk < U32_LIMIT && n <= MAX_PEND
    ensures IsCommit(EncodeCommit(seqNo, chk, n), seqNo)
    ensures R32(EncodeCommit(seqNo, chk, n), 12) == chk
  {
    var a := W32(ZERO_BLOCK, 0, MAGIC);
    var b := W32(a, 4, COMMIT);
    var c := W32(b, 8, seqNo);
    var d := W32(c, 12, chk);
    var e := W32(d, 16, n);
    assert R32(e, 0) == R32(d, 0) == R32(c, 0) == R32(b, 0) == R32(a, 0);
    assert R32(e, 4) == R32(d, 4) == R32(c, 4) == R32(b, 4);
    assert R32(e, 8) == R32(d, 8) == R32(c, 8);
    assert R32(e, 12) == R32(d, 12);
  }

  // ---- superblock ----

  function SuperSeq(b: Block): nat { R32(b, 8) }

  /** jbd_init replaces a start outside the ring by 1. */
  function SuperStart(b: Block): (r: nat)
    ensures 1 <= r <= LAST_SLOT
  {
    var s := R32(b, 12);
    if s == 0 || s >= JOURNAL_BLOCKS then 1 else s
  }

  function EncodeSuper(b: Block, seqNo: nat, start: nat): Block
    requires seqNo < U32_LIMIT && start < U32_LIMIT
  {
    W32(W32(b, 8, seqNo), 12, start)
  }

  lemma SuperRoundTrip(b: Block, seqNo: nat, start: nat)
    requires seqNo < U32_LIMIT && 1 <= start <= LAST_SLOT
    ensures R32(EncodeSuper(b, seqNo, start), 0) == R32(b, 0)
    ensures SuperSeq(EncodeSuper(b, seqNo, start)) == seqNo
    ensures SuperStart(EncodeSuper(b, seqNo, start)) == start
  {
    var a := W32(b, 8, seqNo);
    assert R32(W32(a, 12, start), 8) == R32(a, 8);
    assert R32(W32(a, 12, start), 0) == R32(a, 0) == R32(b, 0);
  }

  // ---- torn writes ----

  /** Fields in the first sector are either all new or all as before. */
  lemma TornField(was: Block, now: Block, t: nat, o: nat)
    requires t <= SECTORS && o + 4 <= SECTOR
    ensures R32(Torn(was, now, t), o) == if t == 0 then R32(was, o) else R32(now, o)
  {
  }

  /** The superblock is rewritten in its first sector only, so it cannot tear. */
  lemma TornSuper(b: Block, seqNo: nat, start: nat, t: nat)
    requires seqNo < U32_LIMIT && start < U32_LIMIT && t <= SECTORS
    ensures Torn(b, EncodeSuper(b, seqNo, start), t) == if t == 0 then b else EncodeSuper(b, seqNo, start)
  {
    var e := EncodeSuper(b, seqNo, start);
    forall i | 0 <= i < BLOCK && t > 0
      ensures Torn(b, e, t)[i] == e[i]
    {
      if i >= SECTOR {
        assert e[i] == W32(b, 8, seqNo)[i] == b[i];
      }
    }
  }

  /** One changed byte in the descriptor changes the checksum. */
  lemma ChangedDescByte(desc: Block, data: seq<Block>, p: nat, b: Byte)
    requires p < BLOCK && desc[p] != b
    ensures Checksum(desc[p := b], data) != Checksum(desc, data)
  {
    hide Crc.Crc32c, ChecksumFrom, Checksum;
    Crc.OneByteChangeDetected(Crc.ONES, desc, p, b);
    ChecksumStaysDifferent(Crc.Crc32c(Crc.ONES, desc[p := b]), Crc.Crc32c(Crc.ONES, desc), data);
    ChecksumDiffers(desc[p := b], desc, data, data);
  }

  /** One changed byte in any data block changes the checksum. */
  lemma ChangedDataByte(desc: Block, data: seq<Block>, k: nat, p: nat, b: Byte)
    requires k < |data| && p < BLOCK && data[k][p] != b
    ensures Checksum(desc, data[k := data[k][p := b]]) != Checksum(desc, data)
  {
    ChecksumOneBlock(Crc.Crc32c(Crc.ONES, desc), data, k, data[k][p := b], p);
    ChecksumDiffers(desc, desc, data[k := data[k][p := b]], data);
  }

  lemma ChecksumDiffers(d: Block, e: Block, x: seq<Block>, y: seq<Block>)
    requires ChecksumFrom(Crc.Crc32c(Crc.ONES, d), x) != ChecksumFrom(Crc.Crc32c(Crc.ONES, e), y)
    ensures Checksum(d, x) != Checksum(e, y)
  {
    if Checksum(d, x) == Checksum(e, y) {
      Crc.ValueInjective(ChecksumFrom(Crc.Crc32c(Crc.ONES, d), x), ChecksumFrom(Crc.Crc32c(Crc.ONES, e), y));
    }
  }

  lemma {:induction false} ChecksumStaysDifferent(i: Crc.Word, j: Crc.Word, data: seq<Block>)
    requires i != j
    ensures ChecksumFrom(i, data) != ChecksumFrom(j, data)
    decreases |data|
  {
    if data != [] {
      var n := |data| - 1;
      ChecksumStaysDifferent(i, j, data[..n]);
      Crc.StaysDifferent(ChecksumFrom(i, data[..n]), ChecksumFrom(j, data[..n]), data[n]);
    }
  }

  lemma ChecksumNothing(i: Crc.Word)
    ensures ChecksumFrom(i, []) == i
  {
  }

  lemma ChecksumLast(i: Crc.Word, data: seq<Block>, last: Block)
    ensures ChecksumFrom(i, data + [last]) == Crc.Crc32c(ChecksumFrom(i, data), last)
  {
    assert (data + [last])[..|data|] == data;
  }

  /** Two data sequences that differ in one block, by one byte, have different checksums. */
  lemma {:induction false} ChecksumOneBlock(i: Crc.Word, data: seq<Block>, k: nat, other: Block, p: nat)
    requires k < |data| && p < BLOCK && data[k][p] != other[p] && other == data[k][p := other[p]]
    ensures ChecksumFrom(i, data[k := other]) != ChecksumFrom(i, data)
    decreases |data|
  {
    hide Crc.Crc32c, ChecksumFrom;
    var n := |data| - 1;
    var front, last := data[..n], data[n];
    assert data == front + [last];
    ChecksumLast(i, front, last);
    if k == n {
      assert data[k := other] == front + [other];
      ChecksumLast(i, front, other);
      Crc.OneByteChangeDetected(ChecksumFrom(i, front), last, p, other[p]);
    } else {
      assert data[k := other] == front[k := other] + [last];
      ChecksumLast(i, front[k := other], last);
      ChecksumOneBlock(i, front, k, other, p);
      Crc.StaysDifferent(ChecksumFrom(i, front[k := other]), ChecksumFrom(i, front), last);
    }
  }
}
