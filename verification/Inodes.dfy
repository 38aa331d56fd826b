/** Inodes: 256-byte records in the inode table, sealed with a checksum over the record. */
module Inodes {
  import opened Bytes
  import opened Wrappers
  import opened Disk
  import opened Bitmap
  import opened Extents
  import opened Volume
  import Crc

  const EXTRA_ISIZE: nat := 32
  const MODE_FILE: nat := 0x81A4
  const EXTENTS_FL: nat := 0x0008_0000

  // ---- where an inode lives ----

  function InodeGroup(ino: nat): nat
    requires ino >= 1
  {
    (ino - 1) / 8192
  }

  function InodeIndex(ino: nat): (i: nat)
    requires ino >= 1
    ensures i < 8192
  {
    (ino - 1) % 8192
  }

  function InodeBlock(ino: nat): nat
    requires ino >= 1
  {
    FirstBlock(InodeGroup(ino)) + 4 + InodeIndex(ino) / 16
  }

  function InodeOff(ino: nat): (o: nat)
    requires ino >= 1
    ensures o + 256 <= 4096
  {
    256 * (InodeIndex(ino) % 16)
  }

  predicate IsIno(geo: Geometry, ino: nat) {
    ino >= 1 && InodeGroup(ino) < geo.groups
  }

  function InodeAt(d: Disk, ino: nat): Raw
    requires ino >= 1 && InodeBlock(ino) < |d|
  {
    d[InodeBlock(ino)][InodeOff(ino)..InodeOff(ino) + 256]
  }

  /** The table is metadata, apart from the superblock, the descriptors and the bitmaps. */
  lemma InodeBlockIs(geo: Geometry, ino: nat)
    requires ValidGeo(geo) && IsIno(geo, ino)
    ensures 1 < InodeBlock(ino) < geo.total && IsMeta(InodeBlock(ino)) && BitOf(InodeBlock(ino)) >= 4
  {
    FullGroups(geo, InodeGroup(ino));
    PartsBlock(InodeGroup(ino), 4 + InodeIndex(ino) / 16);
  }

  /** Different inodes have different bytes. */
  lemma InodesApart(i: nat, j: nat)
    requires i >= 1 && j >= 1 && i != j
    ensures InodeBlock(i) != InodeBlock(j) || InodeOff(i) + 256 <= InodeOff(j) || InodeOff(j) + 256 <= InodeOff(i)
  {
  }

  /** The bit of the inode in the inode bitmap of its group. */
  predicate Marked(d: Disk, ino: nat)
    requires ino >= 1
  {
    InodeMapBlock(InodeGroup(ino)) < |d| && Bit(d[InodeMapBlock(InodeGroup(ino))], InodeIndex(ino))
  }

  // ---- the checksum ----

  function Blank(raw: Raw): (r: Raw) {
    W16(W16(raw, 124, 0), 130, 0)
  }

  /** The register once the volume and the number of the inode were fed. */
  function Seed(ino: nat): Crc.Word
    requires ino < U32_LIMIT
  {
    hide Crc.Crc32c;
    Crc.Crc32c(Crc.Crc32c(Crc.ONES, Uuid()), Le32(ino))
  }

  function InodeCsum(ino: nat, raw: Raw, extra: nat): (c: nat)
    requires ino < U32_LIMIT && extra <= 128
    ensures c < U32_LIMIT
  {
    hide Crc.Crc32c, Seed;
    Crc.Number(Crc.Crc32c(Seed(ino), Blank(raw)[..128 + extra]))
  }

  /** Load accepts these bytes; a size of extra fields beyond the record would be out of bounds. */
  predicate CsumOk(ino: nat, raw: Raw, csum: bool)
    requires ino < U32_LIMIT
  {
    var extra := R16(raw, 128);
    extra <= 128 && (csum && extra > 0 ==> R16(raw, 124) + 0x1_0000 * R16(raw, 130) == InodeCsum(ino, raw, extra))
  }

  function Stamped(ino: nat, raw: Raw, csum: bool): (r: Raw)
    requires ino < U32_LIMIT && R16(raw, 128) <= 128
  {
    if csum && R16(raw, 128) > 0 then
      var c := InodeCsum(ino, raw, R16(raw, 128));
      W16(W16(raw, 124, c % 0x1_0000), 130, c / 0x1_0000)
    else raw
  }

  /** A stamped record is accepted, and differs from the original in the four checksum bytes at most. */
  lemma StampedIsOk(ino: nat, raw: Raw, csum: bool)
    requires ino < U32_LIMIT && R16(raw, 128) <= 128
    ensures CsumOk(ino, Stamped(ino, raw, csum), csum)
    ensures forall i :: 0 <= i < 256 && i !in {124, 125, 130, 131} ==> Stamped(ino, raw, csum)[i] == raw[i]
  {
    hide InodeCsum;
    var r := Stamped(ino, raw, csum);
    if csum && R16(raw, 128) > 0 {
      var c := InodeCsum(ino, raw, R16(raw, 128));
      var a: Raw := W16(raw, 124, c % 0x1_0000);
      assert R16(r, 124) == R16(a, 124) && R16(r, 128) == R16(raw, 128);
      SameBlank(ino, raw, r);
    }
  }

  /** The checksum does not cover its own bytes. */
  lemma SameBlank(ino: nat, raw: Raw, r: Raw)
    requires ino < U32_LIMIT && R16(raw, 128) <= 128
    requires forall i :: 0 <= i < 256 && i !in {124, 125, 130, 131} ==> r[i] == raw[i]
    ensures InodeCsum(ino, r, R16(raw, 128)) == InodeCsum(ino, raw, R16(raw, 128))
  {
    assert Blank(r) == Blank(raw);
  }

  /** Byte `p` and no other is different. */
  predicate OnlyByte(raw: Raw, r: Raw, p: nat) {
    p < 256 && r[p] != raw[p] && forall i :: 0 <= i < 256 && i != p ==> r[i] == raw[i]
  }

  function StoredCsum(raw: Raw): nat { R16(raw, 124) + 0x1_0000 * R16(raw, 130) }

  lemma CoveredByte(ino: nat, raw: Raw, extra: nat, r: Raw, p: nat)
    requires ino < U32_LIMIT && extra <= 128 && p < 128 + extra && p !in {124, 125, 130, 131} && OnlyByte(raw, r, p)
    ensures InodeCsum(ino, r, extra) != InodeCsum(ino, raw, extra)
  {
    BlankByte(raw, r, p);
    var n := 128 + extra;
    hide Crc.Crc32c, Crc.Number, Blank, Seed;
    Crc.OneByteChangeDetected(Seed(ino), Blank(raw)[..n], p, r[p]);
    assert Blank(r)[..n] == Blank(raw)[..n][p := r[p]];
    NumbersDiffer(Crc.Crc32c(Seed(ino), Blank(r)[..n]), Crc.Crc32c(Seed(ino), Blank(raw)[..n]));
  }

  lemma NumbersDiffer(x: Crc.Word, y: Crc.Word)
    requires x != y
    ensures Crc.Number(x) != Crc.Number(y)
  {
    if Crc.Number(x) == Crc.Number(y) {
      Crc.ValueInjective(x, y);
    }
  }

  lemma BlankByte(raw: Raw, r: Raw, p: nat)
    requires OnlyByte(raw, r, p)
    ensures Blank(r) == if p in {124, 125, 130, 131} then Blank(raw) else Blank(raw)[p := r[p]]
    ensures p !in {124, 125, 130, 131} ==> Blank(raw)[p] == raw[p]
  {
  }

  /** A byte behind the extra fields is not covered. */
  lemma UncoveredByte(ino: nat, raw: Raw, extra: nat, r: Raw, p: nat)
    requires ino < U32_LIMIT && extra <= 128 && OnlyByte(raw, r, p) && (p >= 128 + extra || p in {124, 125, 130, 131})
    ensures InodeCsum(ino, r, extra) == InodeCsum(ino, raw, extra)
  {
    BlankByte(raw, r, p);
    hide Crc.Crc32c, Crc.Number, Blank, Seed;
    assert Blank(r)[..128 + extra] == Blank(raw)[..128 + extra];
  }

  lemma FieldsStay(raw: Raw, r: Raw, p: nat)
    requires OnlyByte(raw, r, p) && p != 128 && p != 129
    ensures R16(r, 128) == R16(raw, 128)
    ensures p !in {124, 125, 130, 131} ==> StoredCsum(r) == StoredCsum(raw)
  {
  }

  /** With one byte changed, other than the size of the extra fields, a good record is refused exactly
      if that byte is covered by the checksum or part of it. */
  lemma OneByteRejected(ino: nat, raw: Raw, r: Raw, p: nat)
    requires ino < U32_LIMIT && CsumOk(ino, raw, true) && R16(raw, 128) > 0
    requires p < 256 && p != 128 && p != 129 && OnlyByte(raw, r, p)
    ensures CsumOk(ino, r, true) <==> p >= 128 + R16(raw, 128) && p !in {130, 131}
  {
    hide *;
    var extra := R16(raw, 128);
    ExtraFits(ino, raw);
    FieldsStay(raw, r, p);
    SameStored(ino, raw, extra);
    SameStored(ino, r, extra);
    if p in {124, 125, 130, 131} {
      StoredMoves(raw, r, p);
      UncoveredByte(ino, raw, extra, r, p);
    } else if p < 128 + extra {
      CoveredByte(ino, raw, extra, r, p);
    } else {
      UncoveredByte(ino, raw, extra, r, p);
    }
  }

  lemma SameStored(ino: nat, r: Raw, extra: nat)
    requires ino < U32_LIMIT && 0 < extra == R16(r, 128) <= 128
    ensures CsumOk(ino, r, true) <==> StoredCsum(r) == InodeCsum(ino, r, extra)
  {
    hide InodeCsum;
  }

  lemma ExtraFits(ino: nat, raw: Raw)
    requires ino < U32_LIMIT && CsumOk(ino, raw, true)
    ensures R16(raw, 128) <= 128
  {
    hide InodeCsum;
  }

  lemma StoredMoves(raw: Raw, r: Raw, p: nat)
    requires p in {124, 125, 130, 131} && OnlyByte(raw, r, p)
    ensures StoredCsum(r) != StoredCsum(raw)
  {
  }

  /** The size of the extra fields is not protected: with zero there, anything is accepted. */
  lemma NoExtraNoCheck(ino: nat, raw: Raw)
    requires ino < U32_LIMIT
    ensures CsumOk(ino, W16(raw, 128, 0), true)
  {
  }

  // ---- load and save ----

  /** The disk after the inode record is written. */
  function Saved(d: Disk, ino: nat, raw: Raw, csum: bool): (r: Disk)
    requires 1 <= ino < U32_LIMIT && InodeBlock(ino) < |d| && R16(raw, 128) <= 128
    ensures |r| == |d|
  {
    Put(d, InodeBlock(ino), Splice(d[InodeBlock(ino)], InodeOff(ino), Stamped(ino, raw, csum)))
  }

  /** Saving one inode changes no other inode and no other block. */
  lemma SavedReads(d: Disk, ino: nat, raw: Raw, csum: bool, j: nat)
    requires 1 <= ino < U32_LIMIT && InodeBlock(ino) < |d| && R16(raw, 128) <= 128
    requires j >= 1 && InodeBlock(j) < |d|
    ensures InodeAt(Saved(d, ino, raw, csum), j) == if j == ino then Stamped(ino, raw, csum) else InodeAt(d, j)
  {
    hide Stamped, Put, InodeBlock, InodeOff;
    var b := Splice(d[InodeBlock(ino)], InodeOff(ino), Stamped(ino, raw, csum));
    PutAt(d, InodeBlock(ino), b, InodeBlock(j));
    if j != ino {
      InodesApart(ino, j);
    }
  }

  method Load(v: Device, ino: nat) returns (r: Result<Raw, FsErr>)
    requires Accounting(v.d, v.geo) && IsIno(v.geo, ino) && ino < U32_LIMIT && InodeBlock(ino) < |v.d|
    requires R16(InodeAt(v.d, ino), 128) <= 128
    ensures r == if CsumOk(ino, InodeAt(v.d, ino), v.csum) then Ok(InodeAt(v.d, ino)) else Err(Io)
  {
    hide InodeCsum, Accounting, InodeTablePtr, DescAt;
    TableAt(v.d, v.geo, InodeGroup(ino));
    var ds := v.DescRead(InodeGroup(ino));
    var b := v.ReadBlock(InodeTablePtr(ds) + InodeIndex(ino) / 16);
    var raw: Raw := b[InodeOff(ino)..InodeOff(ino) + 256];
    if v.csum {
      var extra := R16(raw, 128);
      if extra > 0 {
        var want := R16(raw, 124) + 0x1_0000 * R16(raw, 130);
        if want != InodeCsum(ino, raw, extra) {
          return Err(Io);
        }
      }
    }
    return Ok(raw);
  }

  lemma TableAt(d: Disk, geo: Geometry, g: nat)
    requires Accounting(d, geo) && g < geo.groups
    ensures g < MAX_DESCS && 1 < |d| && InodeTablePtr(DescAt(d[1], g)) == FirstBlock(g) + 4
  {
    hide Sums, InodeCounts, FreeSum, SbFree;
    assert GroupOk(d, geo, g);
  }

  method Save(v: Device, ino: nat, raw: Raw)
    requires v.Valid() && Accounting(v.d, v.geo) && IsIno(v.geo, ino) && ino < U32_LIMIT && InodeBlock(ino) < |v.d|
    requires R16(raw, 128) <= 128
    modifies v`d, v`log
    ensures v.Valid() && v.d == Saved(old(v.d), ino, raw, v.csum)
    ensures BlocksOf(v.log) == BlocksOf(old(v.log)) + {InodeBlock(ino)}
  {
    hide Stamped, Put, Splice, Overwrite, BlocksOf, InodeTablePtr, DescAt, Accounting, Counts;
    TableAt(v.d, v.geo, InodeGroup(ino));
    var ds := v.DescRead(InodeGroup(ino));
    var blk := InodeTablePtr(ds) + InodeIndex(ino) / 16;
    var b := v.ReadBlock(blk);
    v.WriteBlock(blk, Splice(b, InodeOff(ino), Stamped(ino, raw, v.csum)));
  }

  // ---- fields ----

  function Size(raw: Raw): nat { R32(raw, 4) + U32_LIMIT * R32(raw, 108) }

  function Mode(raw: Raw): nat { R16(raw, 0) }

  function AreaOf(raw: Raw): Area { raw[40..100] }

  /** `mode & S_IFREG != 0` */
  predicate IsRegular(raw: Raw) { Mode(raw) / 0x8000 % 2 == 1 }

  function NewInode(mode: nat, links: nat): (r: Raw)
    requires mode < 0x1_0000 && links < 0x1_0000
  {
    W16(W16(W32(W32(W16(W16(Zeros(256), 0, mode), 26, links), 32, EXTENTS_FL), 36, 1), 128, EXTRA_ISIZE), 132, 1)
  }

  lemma NewInodeReads(mode: nat, links: nat)
    requires mode < 0x1_0000 && links < 0x1_0000
    ensures var r := NewInode(mode, links); R16(r, 128) == EXTRA_ISIZE && Mode(r) == mode
  {
    hide W16, W32, R32, Zeros;
    var a: Raw := W16(Zeros(256), 0, mode);
    var b: Raw := W32(W32(W16(a, 26, links), 32, EXTENTS_FL), 36, 1);
    var c: Raw := W16(b, 128, EXTRA_ISIZE);
    assert R16(b, 0) == R16(a, 0) && R16(c, 0) == R16(b, 0);
  }
}
