/** Rewriting a file: free the old blocks, save an empty inode, then allocate, write and append
    block by block; on failure free what was appended and leave the file empty. */
module FileWrite {
  import opened Bytes
  import opened Collections
  import opened Wrappers
  import opened Disk
  import opened Extents
  import opened Volume
  import opened Inodes
  import opened Files
  import opened FileSystem
  import opened FreeSpace

  // ---- the data in blocks ----

  function NumBlocks(n: nat): nat { (n + 4095) / 4096 }

  /** Block `i` of the data, the last one padded with zeros. */
  function Chunk(data: seq<Byte>, i: nat): (b: Block)
    requires 4096 * i < |data|
    ensures forall k :: 0 <= k < 4096 ==> b[k] == if 4096 * i + k < |data| then data[4096 * i + k] else 0
  {
    var n := Least(|data| - 4096 * i, 4096);
    data[4096 * i..4096 * i + n] + Zeros(4096 - n)
  }

  ghost predicate ChunkAt(d: Disk, p: seq<nat>, data: seq<Byte>, i: nat) {
    i < |p| && p[i] < |d| && 4096 * i < |data| && d[p[i]] == Chunk(data, i)
  }

  lemma ChunksAreData(d: Disk, p: seq<nat>, data: seq<Byte>)
    requires |p| == NumBlocks(|data|) && forall i: nat :: i < |p| ==> ChunkAt(d, p, data, i)
    ensures DataAt(d, p, data)
  {
    forall k: nat | k < |data|
      ensures ByteAt(d, p, k, data[k])
    {
      assert ChunkAt(d, p, data, k / 4096);
    }
  }

  // ---- the loop ----

  /** Block `i` of the file holds chunk `i` of the data, for all blocks it has. */
  ghost predicate Chunks(d: Disk, p: seq<nat>, data: seq<Byte>) {
    forall i: nat :: i < |p| ==> ChunkAt(d, p, data, i)
  }

  /** Since `d1` exactly the blocks `p`, all free then, became used. */
  ghost predicate Took(d1: Disk, d: Disk, geo: Geometry, p: seq<nat>) {
    Distinct(p) && UsedSet(d, geo) == UsedSet(d1, geo) + Elems(p) && Elems(p) !! UsedSet(d1, geo)
  }

  ghost predicate DataList(geo: Geometry, p: seq<nat>) {
    forall x :: x in p ==> x < geo.total && !IsMeta(x)
  }

  /** From disk `d1`, the blocks `p` were allocated and hold the first `|p|` chunks. */
  ghost predicate Writing(d1: Disk, d: Disk, geo: Geometry, p: seq<nat>, data: seq<Byte>) {
    Accounting(d, geo) && Took(d1, d, geo, p) && DataList(geo, p) && Changed(d1, d, Elems(p)) && Chunks(d, p, data)
  }

  lemma WritingNothing(d: Disk, geo: Geometry, data: seq<Byte>)
    requires Accounting(d, geo)
    ensures Writing(d, d, geo, [], data)
  {
    hide Accounting, UsedSet;
  }

  lemma WroteBlock(d: Disk, geo: Geometry, blk: nat, csum: bool, b: Block)
    requires Accounting(d, geo) && blk < geo.total <= |d| && !Used(d, blk) && !IsMeta(blk) && Markable(d, blk)
    requires csum == geo.csum
    ensures var e := Put(Toggled(d, blk, true, csum), blk, b);
      && Accounting(e, geo) && UsedSet(e, geo) == UsedSet(d, geo) + {blk}
      && e[blk] == b && Changed(d, e, {blk})
  {
    hide Toggled, Markable, Used, Accounting, Put, UsedSet, Changed, IsMeta, SameData, BitOf;
    var m := Toggled(d, blk, true, csum);
    BeyondBoot(blk);
    ToggleKeepsAccounting(d, geo, blk, true, csum);
    ToggledSet(d, geo, blk, true, csum);
    ToggledData(d, geo, blk, true, csum);
    DataWriteSet(m, geo, blk, b);
    PutAt(m, blk, b, blk);
    PutChanged(d, m, blk, b);
  }

  lemma DataWriteSet(d: Disk, geo: Geometry, blk: nat, b: Block)
    requires Accounting(d, geo) && 1 < blk < |d| && BitOf(blk) != 2 && BitOf(blk) != 3
    ensures Accounting(Put(d, blk, b), geo) && UsedSet(Put(d, blk, b), geo) == UsedSet(d, geo)
  {
    hide Used, Accounting, Put, BitOf;
    DataWriteKeeps(d, geo, blk, b);
  }

  lemma PutChanged(d: Disk, m: Disk, blk: nat, b: Block)
    requires SameData(d, m) && blk < |d|
    ensures Changed(d, Put(m, blk, b), {blk})
  {
    hide Put, IsAcct;
    forall x: nat | x < |d| && !IsAcct(x) && x != blk
      ensures Put(m, blk, b)[x] == d[x]
    {
      PutAt(m, blk, b, x);
    }
  }

  lemma BeyondBoot(blk: nat)
    requires !IsMeta(blk)
    ensures 1 < blk && BitOf(blk) >= 4 && !IsAcct(blk)
  {
  }

  /** Block 0 is metadata, so it is neither allocated nor part of a file. */
  lemma NotBoot(d: Disk, geo: Geometry, blk: nat)
    requires MetaUsed(d, geo) && blk < geo.total && !Used(d, blk)
    ensures blk > 1
  {
    hide Used;
  }

  lemma NewNotBoot(d1: Disk, d: Disk, geo: Geometry, p: seq<nat>, data: seq<Byte>, blk: nat)
    requires Writing(d1, d, geo, p, data) && MetaUsed(d1, geo) && blk < geo.total && !Used(d, blk)
    ensures blk > 1
  {
    hide Used, Accounting, Changed, Chunks, DataList, Elems;
    assert Used(d1, 0) ==> 0 in UsedSet(d1, geo);
    assert Used(d1, 1) ==> 1 in UsedSet(d1, geo);
    assert 0 in UsedSet(d1, geo) ==> 0 in UsedSet(d, geo);
  }

  lemma ListNotBoot(geo: Geometry, p: seq<nat>, k: nat)
    requires DataList(geo, p) && k < |p|
    ensures p[k] > 1
  {
    assert p[k] in p;
  }

  lemma WritingStep(d1: Disk, d: Disk, geo: Geometry, p: seq<nat>, data: seq<Byte>, blk: nat, csum: bool)
    requires Writing(d1, d, geo, p, data) && 4096 * |p| < |data| && MetaUsed(d1, geo) && csum == geo.csum
    requires blk < geo.total <= |d| && !Used(d, blk) && Markable(d, blk)
    ensures Writing(d1, Put(Toggled(d, blk, true, csum), blk, Chunk(data, |p|)), geo, p + [blk], data)
  {
    var q, b := p + [blk], Chunk(data, |p|);
    var e := Put(Toggled(d, blk, true, csum), blk, b);
    hide Toggled, Markable, Used, Accounting, Chunk, Put, IsMeta, UsedSet, IsAcct, Changed, Chunks, Took, DataList;
    NewBlock(d1, d, geo, p, blk);
    WroteBlock(d, geo, blk, csum, b);
    ElemsSnoc(p, blk);
    ChunksStep(d, e, geo, p, data, blk);
    TookStep(d1, d, e, geo, p, blk);
    DataListStep(geo, p, blk);
    ChangedTrans(d1, d, e, Elems(p), {blk});
  }

  lemma TookStep(d1: Disk, d: Disk, e: Disk, geo: Geometry, p: seq<nat>, blk: nat)
    requires Took(d1, d, geo, p) && UsedSet(e, geo) == UsedSet(d, geo) + {blk} && blk !in Elems(p)
      && blk !in UsedSet(d1, geo)
    ensures Took(d1, e, geo, p + [blk])
  {
    hide UsedSet, Distinct, Elems;
    ElemsSnoc(p, blk);
    DistinctSnoc(p, blk);
  }

  lemma DataListStep(geo: Geometry, p: seq<nat>, blk: nat)
    requires DataList(geo, p) && blk < geo.total && !IsMeta(blk)
    ensures DataList(geo, p + [blk])
  {
    hide IsMeta;
  }

  /** What alloc_block returns inside the loop was free before the loop and is not metadata. */
  lemma NewBlock(d1: Disk, d: Disk, geo: Geometry, p: seq<nat>, blk: nat)
    requires MetaUsed(d1, geo) && Took(d1, d, geo, p) && blk < geo.total && !Used(d, blk)
    ensures !IsMeta(blk) && blk !in Elems(p) && blk !in p && blk !in UsedSet(d1, geo)
  {
    hide Used, IsMeta;
    assert blk !in UsedSet(d, geo);
    assert IsMeta(blk) ==> Used(d1, blk) && blk in UsedSet(d1, geo);
    assert blk in p ==> blk in Elems(p);
  }

  lemma ChangedTrans(d: Disk, e: Disk, f: Disk, s: set<nat>, t: set<nat>)
    requires Changed(d, e, s) && Changed(e, f, t)
    ensures Changed(d, f, s + t)
  {
    hide IsAcct;
  }

  lemma ChunksStep(d: Disk, e: Disk, geo: Geometry, p: seq<nat>, data: seq<Byte>, blk: nat)
    requires Changed(d, e, {blk}) && blk < |d| && blk !in p && DataList(geo, p)
    requires 4096 * |p| < |data| && e[blk] == Chunk(data, |p|) && Chunks(d, p, data)
    ensures Chunks(e, p + [blk], data)
  {
    hide Chunk, IsMeta, IsAcct;
    forall i: nat | i < |p| + 1
      ensures ChunkAt(e, p + [blk], data, i)
    {
      if i < |p| {
        assert ChunkAt(d, p, data, i) && p[i] in p;
        BeyondBoot(p[i]);
      }
    }
  }

  lemma DistinctSnoc(p: seq<nat>, x: nat)
    requires Distinct(p) && x !in Elems(p)
    ensures Distinct(p + [x])
  {
    forall a | 0 <= a < |p|
      ensures p[a] != x
    {
      assert p[a] in p;
    }
  }

  /** Blocks written besides the accounting's own. */
  ghost predicate OnlyWrote(before: set<nat>, now: set<nat>, s: set<nat>) {
    forall b :: b in now ==> b in before || IsAcct(b) || b in s
  }

  /** At most `n` blocks beside those of the block accounting were written since. */
  ghost predicate Spent(before: set<nat>, now: set<nat>, n: nat) {
    exists s: set<nat> :: |s| <= n && OnlyWrote(before, now, s)
  }

  lemma SpentBy(a: set<nat>, b: set<nat>, s: set<nat>, n: nat)
    requires OnlyWrote(a, b, s) && |s| <= n
    ensures Spent(a, b, n)
  {
  }

  lemma SpentSame(a: set<nat>, n: nat)
    ensures Spent(a, a, n)
  {
    assert OnlyWrote(a, a, {});
    SpentBy(a, a, {}, n);
  }

  lemma SpentOne(a: set<nat>, x: nat)
    ensures Spent(a, a + {x}, 1)
  {
    assert OnlyWrote(a, a + {x}, {x});
    SpentBy(a, a + {x}, {x}, 1);
  }

  /** Accounting, and one more. */
  lemma SpentAcct(a: set<nat>, b: set<nat>, c: set<nat>, x: nat)
    requires OnlyAcct(a, b) && forall y :: y in c ==> y in b || IsAcct(y) || y == x
    ensures Spent(a, c, 1)
  {
    hide IsAcct;
    assert OnlyWrote(a, c, {x});
    SpentBy(a, c, {x}, 1);
  }

  lemma SpentTrans(a: set<nat>, b: set<nat>, c: set<nat>, n: nat, m: nat)
    requires Spent(a, b, n) && Spent(b, c, m)
    ensures Spent(a, c, n + m)
  {
    hide IsAcct;
    var s: set<nat> :| |s| <= n && OnlyWrote(a, b, s);
    var t: set<nat> :| |t| <= m && OnlyWrote(b, c, t);
    assert |s + t| <= |s| + |t|;
    SpentBy(a, c, s + t, n + m);
  }

  lemma SpentMore(a: set<nat>, b: set<nat>, n: nat, m: nat)
    requires Spent(a, b, n) && n <= m
    ensures Spent(a, b, m)
  {
  }

  /** Giving an inode a new block: accounting, the block, the inode. */
  lemma SpentGrow(a: set<nat>, bm: nat, blk: nat, x: nat)
    requires IsAcct(bm)
    ensures Spent(a, a + {bm, 1, 0} + {blk}, 2) && Spent(a, a + {bm, 1, 0} + {blk} + {x}, 2)
  {
    var b := a + {bm, 1, 0} + {blk};
    assert OnlyWrote(a, b, {blk}) && OnlyWrote(a, b + {x}, {blk, x});
    SpentBy(a, b, {blk}, 2);
    SpentBy(a, b + {x}, {blk, x}, 2);
  }

  /** No block of `keep` was written since. */
  ghost predicate Avoids(before: set<nat>, now: set<nat>, keep: set<nat>) {
    forall b :: b in now ==> b in before || b !in keep
  }

  lemma AvoidsTrans(a: set<nat>, b: set<nat>, c: set<nat>, keep: set<nat>)
    requires Avoids(a, b, keep) && Avoids(b, c, keep)
    ensures Avoids(a, c, keep)
  {
  }

  lemma AvoidsLess(a: set<nat>, b: set<nat>, keep: set<nat>, less: set<nat>)
    requires Avoids(a, b, keep) && less <= keep
    ensures Avoids(a, b, less)
  {
  }

  /** Metadata and blocks of one's own are not among the blocks of other files. */
  lemma OnlyWroteAvoids(a: set<nat>, b: set<nat>, s: set<nat>, x: nat, geo: Geometry, keep: set<nat>)
    requires OnlyWrote(a, b, s + {x}) && DataOnly(geo, keep) && keep !! s && IsMeta(x)
    ensures Avoids(a, b, keep)
  {
    hide IsMeta, IsAcct;
    forall y: nat | y in keep
      ensures !IsAcct(y)
    {
      BeyondBoot(y);
    }
  }

  /** One turn of the loop of write_file. */
  method AppendChunk(v: Device, raw: array<Byte>, data: seq<Byte>, written: nat, ghost d1: Disk, ghost p: seq<nat>,
                     ghost f: seq<nat>)
    returns (r: Result<nat, FsErr>, ghost lost: seq<nat>)
    requires v.Valid() && raw.Length == 256 && Holds(raw[40..100], p)
    requires f == FreeList(UsedSet(d1, v.geo), v.geo.total) && InLine(f, p)
    requires Writing(d1, v.d, v.geo, p, data) && written == 4096 * |p| < |data| && MetaUsed(d1, v.geo)
    modifies v`d, v`log, raw
    ensures v.Valid() && raw[..40] == old(raw[..40]) && raw[100..] == old(raw[100..])
    ensures r.Ok? ==>
              && lost == [] && Writing(d1, v.d, v.geo, p + [r.value], data) && Holds(raw[40..100], p + [r.value])
              && OnlyWrote(BlocksOf(old(v.log)), BlocksOf(v.log), {r.value}) && InLine(f, p + [r.value])
    ensures r.Err? ==>
              && raw[..] == old(raw[..]) && Writing(d1, v.d, v.geo, p + lost, data)
              && OnlyWrote(BlocksOf(old(v.log)), BlocksOf(v.log), Elems(lost))
    ensures r.Err? && r.error == NoSpace ==> lost == [] && v.d == old(v.d) && Full(v.d, v.geo) && p == f
    ensures r.Err? && r.error != NoSpace ==>
              r.error == Unsupported && |lost| == 1 && |RunsOf(p + lost)| > MAX_ENTRIES && InLine(f, p + lost)
  {
    hide Accounting, Toggled, Markable, Full, IsLowest, Overwrite, BlocksOf, Writing, Used, Holds, Chunk, Put, RunsOf,
         FreeList, InLine, UsedSet, Elems;
    ghost var d := v.d;
    WritingFits(d1, d, v.geo, p, data);
    WritingTook(d1, d, v.geo, p, data);
    var got := v.AllocBlock();
    if got.Err? {
      assert p + [] == p;
      OnlyWroteRefl(BlocksOf(v.log), Elems([]));
      FullIsOver(d1, d, v.geo, f, p);
      return Err(NoSpace), [];
    }
    var blk := got.value;
    LowestIs(d, v.geo, blk);
    LowestIsNext(d1, d, v.geo, f, p, blk);
    var b := Chunk(data, written / 4096);
    WritingStep(d1, d, v.geo, p, data, blk, v.csum);
    NewNotBoot(d1, d, v.geo, p, data, blk);
    v.WriteBlock(blk, b);
    OneBlockWritten(blk, v.geo);
    var ok := ExtentAppend(raw, blk, p);
    if !ok {
      JustThis(blk);
      return Err(Unsupported), [blk];
    }
    return Ok(blk), [];
  }

  lemma JustThis(blk: nat)
    ensures Elems([blk]) == {blk}
  {
  }

  lemma WritingTook(d1: Disk, d: Disk, geo: Geometry, p: seq<nat>, data: seq<Byte>)
    requires Writing(d1, d, geo, p, data)
    ensures UsedSet(d, geo) == UsedSet(d1, geo) + Elems(p)
  {
    hide Accounting, UsedSet;
  }

  lemma WritingFits(d1: Disk, d: Disk, geo: Geometry, p: seq<nat>, data: seq<Byte>)
    requires Writing(d1, d, geo, p, data)
    ensures Accounting(d, geo) && geo.total <= |d| && |p| <= geo.total < BLOCK_LIMIT
  {
    assert Elems(p) <= Range(0, geo.total);
    DistinctSize(p);
    RangeSize(0, geo.total);
    SubsetSize(Elems(p), Range(0, geo.total));
  }

  lemma LowestIs(d: Disk, geo: Geometry, blk: nat)
    requires IsLowest(d, geo, blk)
    ensures blk < geo.total && !Used(d, blk)
  {
  }

  lemma OneBlockWritten(blk: nat, geo: Geometry)
    ensures IsAcct(BitmapBlock(GroupOf(blk))) && IsAcct(0) && IsAcct(1)
  {
    PartsBlock(GroupOf(blk), 2);
  }

  // ---- between the steps of a rewrite ----

  /** Midway through rewriting inode `ino`: the counters are right and no other file is hurt. */
  ghost predicate Mid(d0: Disk, d: Disk, geo: Geometry, files: FileMap, ino: nat) {
    && Accounting(d, geo) && MetaUsed(d, geo) && Kept(files, ino) <= UsedSet(d, geo) && DataOnly(geo, Kept(files, ino))
    && OthersKept(d0, d, geo, ino, Kept(files, ino))
  }

  function OldBlocks(files: FileMap, ino: nat): seq<nat> {
    if ino in files then files[ino] else []
  }

  lemma MetaStays(d: Disk, e: Disk, geo: Geometry, gone: set<nat>)
    requires MetaUsed(d, geo) && UsedSet(d, geo) - gone <= UsedSet(e, geo) && forall x :: x in gone ==> !IsMeta(x)
    ensures MetaUsed(e, geo)
  {
    hide Used, IsMeta;
    forall x: nat | x < geo.total && IsMeta(x)
      ensures Used(e, x)
    {
      assert x in UsedSet(d, geo);
      assert x in UsedSet(e, geo);
    }
  }

  lemma SameIsChanged(d: Disk, e: Disk, s: set<nat>)
    requires SameData(d, e)
    ensures Changed(d, e, s)
  {
    hide IsAcct;
  }

  lemma MidStart(d: Disk, geo: Geometry, csum: bool, files: FileMap, ino: nat)
    requires FsOk(d, geo, csum, files)
    ensures Mid(d, d, geo, files, ino)
    ensures DataList(geo, OldBlocks(files, ino)) && Kept(files, ino) !! Elems(OldBlocks(files, ino))
    ensures Distinct(OldBlocks(files, ino)) && Elems(OldBlocks(files, ino)) <= UsedSet(d, geo)
    ensures ino in files ==> InodeOk(d, geo, csum, ino, files[ino])
  {
    hide InodeOk, Used, IsMeta, Kept;
    KeptFacts(d, geo, csum, files, ino);
    assert Accounting(d, geo) ==> ValidGeo(geo) && geo.total <= |d|;
    hide Accounting;
    OthersRefl(d, geo, ino, Kept(files, ino));
    if ino in files {
      assert FileOk(d, geo, csum, ino, files[ino]);
      InBounds(d, geo, files[ino]);
    }
  }

  lemma InBounds(d: Disk, geo: Geometry, p: seq<nat>)
    requires OwnBlocks(d, geo, p)
    ensures DataList(geo, p)
  {
    hide Used, IsMeta;
    forall x | x in p
      ensures x < geo.total
    {
      assert x in Elems(p);
    }
  }

  /** Freeing blocks that belong to no other file. */
  lemma MidFreed(d0: Disk, d: Disk, e: Disk, geo: Geometry, files: FileMap, ino: nat, p: seq<nat>)
    requires Mid(d0, d, geo, files, ino) && Freed(d, e, geo, p, |p|) && DataList(geo, p) && Kept(files, ino) !! Elems(p)
    ensures Mid(d0, e, geo, files, ino) && UsedSet(e, geo) == UsedSet(d, geo) - Elems(p)
  {
    assert p[..|p|] == p;
    assert ValidGeo(geo) && geo.total <= |d|;
    hide Used, IsMeta, Accounting, UsedSet, Kept, OthersKept, SameData, Changed;
    assert forall x :: x in Elems(p) ==> !IsMeta(x);
    MetaStays(d, e, geo, Elems(p));
    SameIsChanged(d, e, {});
    OthersWrites(d, e, geo, ino, Kept(files, ino), {});
    OthersTrans(d0, d, e, geo, ino, Kept(files, ino));
  }

  /** Saving the inode itself. */
  lemma MidSaved(d0: Disk, d: Disk, geo: Geometry, csum: bool, files: FileMap, ino: nat, raw: Raw, p: seq<nat>)
    requires Mid(d0, d, geo, files, ino) && IsIno(geo, ino) && ino < U32_LIMIT && InodeBlock(ino) < |d|
    requires R16(raw, 128) <= 128 && Holds(AreaOf(raw), p)
    ensures var e := Saved(d, ino, raw, csum);
      && Mid(d0, e, geo, files, ino) && UsedSet(e, geo) == UsedSet(d, geo) && InodeOk(e, geo, csum, ino, p)
      && InodeAt(e, ino) == Stamped(ino, raw, csum) && Changed(d, e, {InodeBlock(ino)})
  {
    assert ValidGeo(geo) && geo.total <= |d|;
    hide Used, IsMeta, Accounting, UsedSet, Kept, OthersKept, MetaUsed, Changed, IsIno, InodeBlock, Holds, R16,
         CsumOk, Stamped, Put, InodeAt, DataOnly;
    var e := Saved(d, ino, raw, csum);
    InoIs(geo, ino);
    MidSavedUse(d, geo, ino, raw, csum);
    MetaStays(d, e, geo, {});
    OthersSaved(d, geo, ino, raw, csum, Kept(files, ino));
    OthersTrans(d0, d, e, geo, ino, Kept(files, ino));
    SavedReads(d, ino, raw, csum, ino);
    StampedIsOk(ino, raw, csum);
    SameArea(raw, Stamped(ino, raw, csum));
  }

  lemma MidSavedUse(d: Disk, geo: Geometry, ino: nat, raw: Raw, csum: bool)
    requires Accounting(d, geo) && IsIno(geo, ino) && ino < U32_LIMIT && InodeBlock(ino) < |d| && R16(raw, 128) <= 128
    ensures var e := Saved(d, ino, raw, csum);
      Accounting(e, geo) && UsedSet(e, geo) == UsedSet(d, geo) && Changed(d, e, {InodeBlock(ino)})
  {
    assert ValidGeo(geo);
    hide Used, Accounting, Stamped, Put, IsIno, InodeBlock, R16, BitOf, UsedSet;
    InoIs(geo, ino);
    InodeBlockIs(geo, ino);
    var b := Splice(d[InodeBlock(ino)], InodeOff(ino), Stamped(ino, raw, csum));
    DataWriteSet(d, geo, InodeBlock(ino), b);
    SameDataRefl(d);
    PutChanged(d, d, InodeBlock(ino), b);
  }

  lemma SameDataRefl(d: Disk)
    ensures SameData(d, d)
  {
  }

  lemma SameArea(raw: Raw, r: Raw)
    requires forall i :: 0 <= i < 256 && i !in {124, 125, 130, 131} ==> r[i] == raw[i]
    ensures AreaOf(r) == AreaOf(raw) && Size(r) == Size(raw) && Mode(r) == Mode(raw)
    ensures R16(r, 26) == R16(raw, 26) && R32(r, 28) == R32(raw, 28)
  {
  }

  /** Writing the new blocks. */
  lemma MidWritten(d0: Disk, d1: Disk, d: Disk, geo: Geometry, files: FileMap, ino: nat, p: seq<nat>, data: seq<Byte>)
    requires Mid(d0, d1, geo, files, ino) && Writing(d1, d, geo, p, data)
    ensures Mid(d0, d, geo, files, ino) && Kept(files, ino) !! Elems(p)
  {
    assert ValidGeo(geo) && geo.total <= |d1|;
    hide Used, IsMeta, Accounting, UsedSet, Kept, OthersKept, Changed, Chunks;
    MetaStays(d1, d, geo, {});
    ListIsData(geo, p);
    OthersWrites(d1, d, geo, ino, Kept(files, ino), Elems(p));
    OthersTrans(d0, d1, d, geo, ino, Kept(files, ino));
  }

  lemma ListIsData(geo: Geometry, p: seq<nat>)
    requires DataList(geo, p)
    ensures DataOnly(geo, Elems(p))
  {
    hide IsMeta;
  }

  /** The file system is whole again once the inode names blocks that are its own. */
  lemma MidDone(d0: Disk, e: Disk, geo: Geometry, csum: bool, files: FileMap, ino: nat, q: seq<nat>)
    requires FsOk(d0, geo, csum, files) && Mid(d0, e, geo, files, ino) && InodeOk(e, geo, csum, ino, q)
      && InoUsed(d0, ino)
    requires Distinct(q) && Elems(q) <= UsedSet(e, geo) && DataList(geo, q) && Kept(files, ino) !! Elems(q)
    ensures FsOk(e, geo, csum, files[ino := q])
  {
    hide InoUsed, Used, IsMeta, Accounting, UsedSet, Kept, OthersKept, MetaUsed, InodeOk, FsOk, Elems;
    FsReplaced(d0, e, geo, csum, files, ino, q);
  }

  // ---- the inode record ----

  /** Mode, size, block count, extents and links of an empty regular file. */
  function ResetRaw(raw: Raw): (r: Raw) {
    var a: Raw := W32(W32(W32(W16(raw, 0, MODE_FILE), 4, 0), 108, 0), 28, 0);
    W16(Splice(a, AREA_AT, Zeros(60)), 26, 1)
  }

  /** The record of a finished file. */
  function CloseRaw(raw: Raw, len: nat): (r: Raw)
    requires len < U32_LIMIT
  {
    W16(W32(W32(raw, 4, len), 28, 8 * NumBlocks(len)), 26, 1)
  }

  /** The record of a file whose writing was given up. */
  function AbortRaw(raw: Raw): (r: Raw) {
    W32(W32(Splice(raw, AREA_AT, Zeros(60)), 108, 0), 28, 0)
  }

  /** The fields of the record that the file system looks at. */
  ghost predicate RecordIs(raw: Raw, size: nat, p: seq<nat>) {
    && Mode(raw) == MODE_FILE && R32(raw, 4) == size && R32(raw, 108) == 0 && R16(raw, 128) <= 128
    && Holds(AreaOf(raw), p) && R16(raw, 26) == 1
  }

  /** The inode has this many names and counts eight sectors for each of its blocks. */
  ghost predicate Tallied(d: Disk, ino: nat, links: nat, p: seq<nat>) {
    ino >= 1 && InodeBlock(ino) < |d| && R16(InodeAt(d, ino), 26) == links && R32(InodeAt(d, ino), 28) == 8 * |p|
  }

  /** The inode got `links` more names and `k` more blocks. */
  ghost predicate TallyMoves(d: Disk, e: Disk, ino: nat, links: nat, k: nat) {
    && ino >= 1 && InodeBlock(ino) < |d| == |e|
    && R16(InodeAt(e, ino), 26) == (R16(InodeAt(d, ino), 26) + links) % 0x1_0000
    && R32(InodeAt(e, ino), 28) == (R32(InodeAt(d, ino), 28) + 8 * k) % U32_LIMIT
  }

  lemma TallyTrans(d: Disk, e: Disk, f: Disk, ino: nat, a: nat, k: nat, b: nat, m: nat)
    requires TallyMoves(d, e, ino, a, k) && TallyMoves(e, f, ino, b, m)
    ensures TallyMoves(d, f, ino, a + b, k + m)
  {
    hide InodeAt, InodeBlock, R16, R32;
    AddInTurn(R16(InodeAt(d, ino), 26), a, b, 0x1_0000);
    AddInTurn(R32(InodeAt(d, ino), 28), 8 * k, 8 * m, U32_LIMIT);
  }

  lemma AddInTurn(x: nat, a: nat, b: nat, m: nat)
    requires m in {0x1_0000, U32_LIMIT}
    ensures ((x + a) % m + b) % m == (x + a + b) % m
  {
  }

  lemma TallyStays(d: Disk, e: Disk, ino: nat)
    requires SameInode(d, e, ino)
    ensures TallyMoves(d, e, ino, 0, 0)
  {
    hide InodeAt, InodeBlock;
  }

  /** What a record saved counts. */
  lemma SavedTally(d: Disk, ino: nat, raw: Raw, csum: bool)
    requires 1 <= ino < U32_LIMIT && InodeBlock(ino) < |d| && R16(raw, 128) <= 128
    ensures var r := InodeAt(Saved(d, ino, raw, csum), ino); R16(r, 26) == R16(raw, 26) && R32(r, 28) == R32(raw, 28)
  {
    hide *;
    SavedReads(d, ino, raw, csum, ino);
    StampedIsOk(ino, raw, csum);
    SameArea(raw, Stamped(ino, raw, csum));
  }

  lemma ResetReads(raw: Raw)
    requires R16(raw, 128) <= 128
    ensures RecordIs(ResetRaw(raw), 0, []) && R32(ResetRaw(raw), 28) == 0
  {
    hide R16, R32, W16, W32, Holds, HasMagic;
    var a: Raw := W16(raw, 0, MODE_FILE);
    var b: Raw := W32(a, 4, 0);
    var c: Raw := W32(b, 108, 0);
    var e: Raw := W32(c, 28, 0);
    var f: Raw := Splice(e, AREA_AT, Zeros(60));
    W16Keeps(raw, 0, MODE_FILE);
    W32Keeps(a, 4, 0);
    W32Keeps(b, 108, 0);
    W32Keeps(c, 28, 0);
    AreaSplice(e);
    W16Keeps(f, 26, 1);
    assert AreaOf(ResetRaw(raw)) == Zeros(60);
    ZeroArea();
  }

  /** A new inode is the record of an empty file. */
  lemma NewRecord()
    ensures RecordIs(NewInode(MODE_FILE, 1), 0, []) && R32(NewInode(MODE_FILE, 1), 28) == 0
  {
    hide R16, R32, W16, W32, Holds, HasMagic;
    var z: Raw := Zeros(256);
    var a: Raw := W16(z, 0, MODE_FILE);
    var b: Raw := W16(a, 26, 1);
    var c: Raw := W32(b, 32, EXTENTS_FL);
    var e: Raw := W32(c, 36, 1);
    var f: Raw := W16(e, 128, EXTRA_ISIZE);
    var r: Raw := W16(f, 132, 1);
    ZeroRecord();
    assert R32(r, 4) == R32(z, 4) && R32(r, 108) == R32(z, 108) && R32(r, 28) == R32(z, 28)
      && R16(r, 26) == R16(b, 26) by {
      W16Keeps(z, 0, MODE_FILE);
      W16Keeps(a, 26, 1);
      W32Keeps(b, 32, EXTENTS_FL);
      W32Keeps(c, 36, 1);
      W16Keeps(e, 128, EXTRA_ISIZE);
      W16Keeps(f, 132, 1);
    }
    NewInodeReads(MODE_FILE, 1);
    assert AreaOf(r) == Zeros(60);
    ZeroArea();
  }

  lemma NewInodeCounts(mode: nat, links: nat)
    requires mode < 0x1_0000 && links < 0x1_0000
    ensures R32(NewInode(mode, links), 108) == 0 && R16(NewInode(mode, links), 26) == links
  {
    hide R16, R32, W16, W32;
    var z: Raw := Zeros(256);
    var a: Raw := W16(z, 0, mode);
    var b: Raw := W16(a, 26, links);
    var c: Raw := W32(b, 32, EXTENTS_FL);
    var e: Raw := W32(c, 36, 1);
    var f: Raw := W16(e, 128, EXTRA_ISIZE);
    ZeroRecord();
    W16Keeps(z, 0, mode);
    W16Keeps(a, 26, links);
    W32Keeps(b, 32, EXTENTS_FL);
    W32Keeps(c, 36, 1);
    W16Keeps(e, 128, EXTRA_ISIZE);
    W16Keeps(f, 132, 1);
  }

  lemma ZeroRecord()
    ensures R32(Zeros(256), 4) == 0 && R32(Zeros(256), 108) == 0 && R32(Zeros(256), 28) == 0
  {
  }

  lemma AreaSplice(e: Raw)
    ensures var f: Raw := Splice(e, AREA_AT, Zeros(60));
      && AreaOf(f) == Zeros(60) && R16(f, 0) == R16(e, 0) && R16(f, 128) == R16(e, 128)
      && R32(f, 4) == R32(e, 4) && R32(f, 108) == R32(e, 108) && R32(f, 28) == R32(e, 28) && R16(f, 26) == R16(e, 26)
  {
  }

  lemma ZeroArea()
    ensures Holds(Zeros(60), [])
  {
    assert !HasMagic(Zeros(60));
    EmptyArea(Zeros(60));
  }

  lemma CloseReads(raw: Raw, len: nat, p: seq<nat>)
    requires RecordIs(raw, 0, p) && len < U32_LIMIT && |p| == NumBlocks(len)
    ensures RecordIs(CloseRaw(raw, len), len, p) && R32(CloseRaw(raw, len), 28) == 8 * |p|
  {
    hide R16, R32, W16, W32, Holds;
    var a: Raw := W32(raw, 4, len);
    var b: Raw := W32(a, 28, 8 * NumBlocks(len));
    W32Keeps(raw, 4, len);
    W32Keeps(a, 28, 8 * NumBlocks(len));
    W16Keeps(b, 26, 1);
    assert AreaOf(CloseRaw(raw, len)) == AreaOf(raw);
  }

  lemma AbortReads(raw: Raw, p: seq<nat>)
    requires RecordIs(raw, 0, p)
    ensures RecordIs(AbortRaw(raw), 0, []) && R32(AbortRaw(raw), 28) == 0
  {
    hide R16, R32, W16, W32, Holds, HasMagic;
    AreaSplice(raw);
    var a: Raw := Splice(raw, AREA_AT, Zeros(60));
    var b: Raw := W32(a, 108, 0);
    W32Keeps(a, 108, 0);
    W32Keeps(b, 28, 0);
    assert AreaOf(AbortRaw(raw)) == Zeros(60);
    ZeroArea();
  }

  // ---- write_file, once the inode is known ----

  /** The loop of write_file. `p` are the blocks appended; on failure with Unsupported one more
      block, `lost`, was allocated and written but could not be appended. */
  method WriteChunks(v: Device, raw: array<Byte>, data: seq<Byte>, ghost d1: Disk)
    returns (err: Option<FsErr>, ghost p: seq<nat>, ghost lost: seq<nat>)
    requires v.Valid() && raw.Length == 256 && Holds(raw[40..100], []) && Accounting(v.d, v.geo)
      && MetaUsed(v.d, v.geo) && d1 == v.d
    modifies v`d, v`log, raw
    ensures v.Valid() && raw[..40] == old(raw[..40]) && raw[100..] == old(raw[100..])
    ensures Holds(raw[40..100], p) && Writing(d1, v.d, v.geo, p + lost, data)
    ensures OnlyWrote(BlocksOf(old(v.log)), BlocksOf(v.log), Elems(p + lost)) && |p + lost| <= NumBlocks(|data|)
    ensures err == Outcome(FreeList(UsedSet(d1, v.geo), v.geo.total), NumBlocks(|data|))
    ensures InLine(FreeList(UsedSet(d1, v.geo), v.geo.total), p + lost)
    ensures err.None? ==> |p| == NumBlocks(|data|) && lost == []
    ensures err.Some? ==> Failure(err.value, lost) && |p| < NumBlocks(|data|)
  {
    hide Accounting, Full, Overwrite, BlocksOf, Writing, Used, Holds, RunsOf, MetaUsed, OnlyWrote, Failure, Elems,
         FreeList, InLine, UsedSet, Outcome;
    WritingNothing(d1, v.geo, data);
    p, lost := [], [];
    ghost var f := FreeList(UsedSet(d1, v.geo), v.geo.total);
    NoneInLine(f);
    var written := 0;
    ghost var before := BlocksOf(v.log);
    OnlyWroteRefl(before, Elems([]));
    for i := 0 to NumBlocks(|data|)
      invariant v.Valid() && raw[..40] == old(raw[..40]) && raw[100..] == old(raw[100..])
      invariant |p| == i && written == Least(4096 * i, |data|) && Holds(raw[40..100], p)
        && Writing(d1, v.d, v.geo, p, data)
      invariant OnlyWrote(before, BlocksOf(v.log), Elems(p)) && InLine(f, p)
    {
      ghost var mid := BlocksOf(v.log);
      var r;
      r, lost := AppendChunk(v, raw, data, written, d1, p, f);
      if r.Err? {
        OnlyWroteLost(before, mid, BlocksOf(v.log), p, lost);
        HoldsFew(raw[40..100], p);
        FailureIs(r.error, f, p, lost, NumBlocks(|data|));
        return Some(r.error), p, lost;
      }
      OnlyWroteStep(before, mid, BlocksOf(v.log), p, r.value);
      p := p + [r.value];
      written := Least(written + 4096, |data|);
    }
    assert p + [] == p;
    HoldsFew(raw[40..100], p);
    OutcomeDone(f, p, NumBlocks(|data|));
    return None, p, [];
  }

  lemma HoldsFew(b: Area, p: seq<nat>)
    requires Holds(b, p)
    ensures |RunsOf(p)| <= MAX_ENTRIES
  {
    hide RunsOf;
  }

  lemma NoneInLine(f: seq<nat>)
    ensures InLine(f, [])
  {
  }

  /** What the loop leaves when it stops early: with no block free nothing is lost, with a fifth run
      the block just taken is. */
  predicate Failure(e: FsErr, lost: seq<nat>) {
    (e == NoSpace && lost == []) || (e == Unsupported && |lost| == 1)
  }

  lemma FailureIs(e: FsErr, f: seq<nat>, p: seq<nat>, lost: seq<nat>, n: nat)
    requires |p| < n && |RunsOf(p)| <= MAX_ENTRIES
    requires e == NoSpace ==> lost == [] && p == f
    requires e != NoSpace ==> e == Unsupported && |lost| == 1 && |RunsOf(p + lost)| > MAX_ENTRIES && InLine(f, p + lost)
    ensures Failure(e, lost) && Outcome(f, n) == Some(e) && |p + lost| <= n && InLine(f, p + lost)
  {
    hide RunsOf, Outcome;
    if e == NoSpace {
      assert p + lost == f;
      OutcomeFull(f, n);
    } else {
      OutcomeFifth(f, p + lost, n);
    }
  }

  lemma OnlyWroteLost(a: set<nat>, b: set<nat>, c: set<nat>, p: seq<nat>, lost: seq<nat>)
    requires OnlyWrote(a, b, Elems(p)) && OnlyWrote(b, c, Elems(lost))
    ensures OnlyWrote(a, c, Elems(p + lost))
  {
    hide IsAcct;
    assert Elems(p + lost) == Elems(p) + Elems(lost);
  }

  lemma OnlyWroteRefl(a: set<nat>, s: set<nat>)
    ensures OnlyWrote(a, a, s)
  {
  }

  lemma OnlyWroteStep(a: set<nat>, b: set<nat>, c: set<nat>, p: seq<nat>, blk: nat)
    requires OnlyWrote(a, b, Elems(p)) && OnlyWrote(b, c, {blk})
    ensures OnlyWrote(a, c, Elems(p + [blk]))
  {
    hide IsAcct;
    ElemsSnoc(p, blk);
  }

  /** The volume after the contents of `ino` were replaced by `data` in the blocks `q`. */
  ghost predicate Rewritten(d0: Disk, d: Disk, geo: Geometry, csum: bool, files: FileMap, ino: nat, q: seq<nat>,
                            data: seq<Byte>) {
    && FsOk(d, geo, csum, files[ino := q]) && FileHolds(d, ino, q, data)
    && OthersKept(d0, d, geo, ino, Kept(files, ino)) && Tallied(d, ino, 1, q)
  }

  /** The record is saved and names the blocks `q`, which hold the data. */
  lemma RewriteDone(d0: Disk, d: Disk, geo: Geometry, csum: bool, files: FileMap, ino: nat, raw: Raw, q: seq<nat>,
                    data: seq<Byte>)
    requires FsOk(d0, geo, csum, files) && Mid(d0, d, geo, files, ino) && IsIno(geo, ino) && ino < U32_LIMIT
      && InodeBlock(ino) < |d|
    requires InoUsed(d0, ino)
    requires RecordIs(raw, |data|, q) && Distinct(q) && Elems(q) <= UsedSet(d, geo) && DataList(geo, q)
      && Kept(files, ino) !! Elems(q)
    requires DataAt(d, q, data) && R32(raw, 28) == 8 * |q|
    ensures Rewritten(d0, Saved(d, ino, raw, csum), geo, csum, files, ino, q, data)
    ensures UsedSet(Saved(d, ino, raw, csum), geo) == UsedSet(d, geo)
  {
    var e := Saved(d, ino, raw, csum);
    assert Accounting(d, geo) && ValidGeo(geo);
    hide InoUsed, Used, Accounting, UsedSet, Kept, OthersKept, MetaUsed, Changed, IsIno, InodeBlock, Holds, R16, R32,
         CsumOk, Stamped, Put, InodeAt, DataOnly, DataList, Distinct, Elems, InodeOk, FsOk, AreaOf, Saved, DataAt;
    MidSaved(d0, d, geo, csum, files, ino, raw, q);
    MidDone(d0, e, geo, csum, files, ino, q);
    StampedIsOk(ino, raw, csum);
    SameArea(raw, Stamped(ino, raw, csum));
    InoIs(geo, ino);
    DataSaved(d, e, geo, InodeBlock(ino), q, data);
    hide Mid;
    RegularMode();
  }

  lemma RegularMode()
    ensures MODE_FILE / 0x8000 % 2 == 1
  {
  }

  lemma DataSaved(d: Disk, e: Disk, geo: Geometry, x: nat, q: seq<nat>, data: seq<Byte>)
    requires DataAt(d, q, data) && DataList(geo, q) && Changed(d, e, {x}) && IsMeta(x)
    ensures DataAt(e, q, data)
  {
    hide IsMeta, IsAcct;
    forall k: nat | k < |data|
      ensures ByteAt(e, q, k, data[k])
    {
      assert ByteAt(d, q, k, data[k]);
      assert q[k / 4096] in q;
      BeyondBoot(q[k / 4096]);
    }
  }

  method ArrayOf(raw: Raw) returns (a: array<Byte>)
    ensures fresh(a) && a.Length == 256 && a[..] == raw
  {
    a := new Byte[256](i requires 0 <= i < 256 => raw[i]);
  }

  lemma MidFacts(d0: Disk, d: Disk, geo: Geometry, files: FileMap, ino: nat)
    requires Mid(d0, d, geo, files, ino) && IsIno(geo, ino)
    ensures Accounting(d, geo) && MetaUsed(d, geo) && 1 <= ino < U32_LIMIT && InodeBlock(ino) < |d|
      && IsMeta(InodeBlock(ino))
  {
    hide InodeBlock, IsIno;
    InoIs(geo, ino);
  }

  /** Free what the file had. */
  method FreeOld(v: Device, ino: nat, existing: bool, ghost files: FileMap) returns (r: Result<Raw, FsErr>)
    requires v.Valid() && FsOk(v.d, v.geo, v.csum, files) && IsIno(v.geo, ino) && (existing <==> ino in files)
    modifies v`d, v`log
    ensures v.Valid() && Mid(old(v.d), v.d, v.geo, files, ino) && r.Ok? && R16(r.value, 128) <= 128
    ensures UsedSet(v.d, v.geo) == UsedSet(old(v.d), v.geo) - Elems(OldBlocks(files, ino))
    ensures OnlyAcct(BlocksOf(old(v.log)), BlocksOf(v.log))
  {
    hide InoUsed, FsOk, Mid, Accounting, UsedSet, Elems, Holds, Distinct, DataList, Kept, Overwrite, BlocksOf, Freed,
         OnlyAcct, R16, InodeAt, InodeBlock, IsIno, AreaOf, CsumOk;
    ghost var d0 := v.d;
    MidStart(d0, v.geo, v.csum, files, ino);
    MidFacts(d0, d0, v.geo, files, ino);
    OnlyAcctRefl(BlocksOf(v.log));
    if !existing {
      NewInodeReads(MODE_FILE, 1);
      NoElems();
      return Ok(NewInode(MODE_FILE, 1));
    }
    RecordFits(d0, v.geo, v.csum, ino, files[ino]);
    var got := Load(v, ino);
    if got.Err? {
      return Err(Io);
    }
    FreeExtents(v, got.value, files[ino]);
    MidFreed(d0, d0, v.d, v.geo, files, ino, files[ino]);
    return got;
  }

  lemma NoElems()
    ensures Elems([]) == {}
  {
  }

  /** Empty the file: its blocks are freed and an empty record is saved up front. */
  method StartOver(v: Device, ino: nat, existing: bool, ghost files: FileMap) returns (raw: Raw)
    requires v.Valid() && FsOk(v.d, v.geo, v.csum, files) && IsIno(v.geo, ino) && InoUsed(v.d, ino)
      && (existing <==> ino in files)
    modifies v`d, v`log
    ensures v.Valid() && Mid(old(v.d), v.d, v.geo, files, ino) && RecordIs(raw, 0, []) && R32(raw, 28) == 0
    ensures Rewritten(old(v.d), v.d, v.geo, v.csum, files, ino, [], [])
    ensures UsedSet(v.d, v.geo) == UsedSet(old(v.d), v.geo) - Elems(OldBlocks(files, ino))
    ensures OnlyWrote(BlocksOf(old(v.log)), BlocksOf(v.log), {InodeBlock(ino)})
  {
    hide InoUsed, FsOk, Mid, Accounting, UsedSet, Elems, Holds, Kept, Overwrite, BlocksOf, R16, InodeAt, InodeBlock,
         IsIno, Rewritten, ResetRaw, AreaOf, Mode, R32, Saved, IsAcct, OldBlocks;
    ghost var d0 := v.d;
    var first := FreeOld(v, ino, existing, files);
    ResetReads(first.value);
    raw := ResetRaw(first.value);
    MidFacts(d0, v.d, v.geo, files, ino);
    NothingAt(v.d, v.geo, Kept(files, ino));
    RewriteDone(d0, v.d, v.geo, v.csum, files, ino, raw, [], []);
    MidSaved(d0, v.d, v.geo, v.csum, files, ino, raw, []);
    Save(v, ino, raw);
  }

  lemma NothingAt(d: Disk, geo: Geometry, keep: set<nat>)
    ensures Distinct([]) && Elems([]) == {} && Elems([]) <= UsedSet(d, geo) && DataList(geo, []) && keep !! Elems([])
      && DataAt(d, [], [])
  {
    hide Used;
  }

  /** The loop failed: free what was appended and save the record without extents. */
  method GiveUp(v: Device, ino: nat, raw: Raw, ghost d0: Disk, ghost d1: Disk, ghost files: FileMap, ghost p: seq<nat>,
                ghost lost: seq<nat>, ghost data: seq<Byte>)
    requires v.Valid() && FsOk(d0, v.geo, v.csum, files) && IsIno(v.geo, ino) && InoUsed(d0, ino)
      && Mid(d0, d1, v.geo, files, ino)
    requires Writing(d1, v.d, v.geo, p + lost, data) && RecordIs(raw, 0, p)
    modifies v`d, v`log
    ensures v.Valid() && Rewritten(d0, v.d, v.geo, v.csum, files, ino, [], [])
    ensures UsedSet(v.d, v.geo) == UsedSet(d1, v.geo) + Elems(lost)
    ensures OnlyWrote(BlocksOf(old(v.log)), BlocksOf(v.log), {InodeBlock(ino)}) && OwnNew(v.geo, files, ino, p + lost)
  {
    hide InoUsed, FsOk, Mid, Accounting, UsedSet, Elems, Holds, Kept, Overwrite, BlocksOf, R16, InodeAt, InodeBlock,
         IsIno, Rewritten, AbortRaw, AreaOf, Mode, R32, Saved, IsAcct, Writing, OnlyAcct, Freed, Distinct, DataList;
    ghost var dw := v.d;
    MidWritten(d0, d1, dw, v.geo, files, ino, p + lost, data);
    NewIsOwn(d1, dw, v.geo, files, ino, p + lost, data);
    MidFacts(d0, dw, v.geo, files, ino);
    FirstPart(d1, dw, v.geo, p, lost, data);
    FreeExtents(v, raw, p);
    KeptPart(Kept(files, ino), p, lost);
    MidFreed(d0, dw, v.d, v.geo, files, ino, p);
    AbortReads(raw, p);
    MidFacts(d0, v.d, v.geo, files, ino);
    NothingAt(v.d, v.geo, Kept(files, ino));
    RewriteDone(d0, v.d, v.geo, v.csum, files, ino, AbortRaw(raw), [], []);
    ghost var before, mid := BlocksOf(old(v.log)), BlocksOf(v.log);
    Save(v, ino, AbortRaw(raw));
    AcctAndOne(before, mid, BlocksOf(v.log), InodeBlock(ino));
  }

  /** Blocks a command may take: on the volume, not metadata, no other file's. */
  ghost predicate OwnNew(geo: Geometry, files: FileMap, ino: nat, w: seq<nat>) {
    DataList(geo, w) && Kept(files, ino) !! Elems(w)
  }

  lemma OwnApart(geo: Geometry, files: FileMap, ino: nat, w: seq<nat>)
    requires OwnNew(geo, files, ino, w)
    ensures Kept(files, ino) !! Elems(w)
  {
    hide Kept, Elems, DataList;
  }

  lemma NewIsOwn(d1: Disk, d: Disk, geo: Geometry, files: FileMap, ino: nat, p: seq<nat>, data: seq<Byte>)
    requires Writing(d1, d, geo, p, data) && Kept(files, ino) !! Elems(p)
    ensures OwnNew(geo, files, ino, p)
  {
    hide Accounting, Took, Chunks, Changed, DataList, Kept;
  }

  lemma AcctAndOne(a: set<nat>, b: set<nat>, c: set<nat>, x: nat)
    requires OnlyAcct(a, b) && c == b + {x}
    ensures OnlyWrote(a, c, {x})
  {
    hide IsAcct;
  }

  lemma KeptPart(keep: set<nat>, p: seq<nat>, q: seq<nat>)
    requires keep !! Elems(p + q)
    ensures keep !! Elems(p)
  {
    assert Elems(p) <= Elems(p + q);
  }

  lemma FirstPart(d1: Disk, d: Disk, geo: Geometry, p: seq<nat>, q: seq<nat>, data: seq<Byte>)
    requires Writing(d1, d, geo, p + q, data)
    ensures Distinct(p) && Elems(p) <= UsedSet(d, geo) && DataList(geo, p)
    ensures UsedSet(d, geo) - Elems(p) == UsedSet(d1, geo) + Elems(q)
  {
    hide Accounting, Used, IsMeta, Chunks, Changed, UsedSet;
    var r := p + q;
    assert forall i :: 0 <= i < |p| ==> r[i] == p[i];
    assert Elems(r) == Elems(p) + Elems(q);
    forall a, b | 0 <= a < b < |p|
      ensures p[a] != p[b]
    {
      assert r[a] != r[b];
    }
    forall x | x in p
      ensures x < geo.total && !IsMeta(x)
    {
      assert x in r;
    }
    forall x | x in Elems(p)
      ensures x !in Elems(q)
    {
      var i: nat :| i < |p| && p[i] == x;
      forall j: nat | j < |q|
        ensures q[j] != x
      {
        assert r[|p| + j] == q[j] && r[i] == x;
      }
    }
  }

  /** The loop succeeded: the record gets its size and is saved. */
  method Finish(v: Device, ino: nat, raw: Raw, data: seq<Byte>, ghost d0: Disk, ghost d1: Disk, ghost files: FileMap,
                ghost q: seq<nat>)
    requires v.Valid() && FsOk(d0, v.geo, v.csum, files) && IsIno(v.geo, ino) && InoUsed(d0, ino)
      && Mid(d0, d1, v.geo, files, ino)
    requires Writing(d1, v.d, v.geo, q, data) && RecordIs(raw, 0, q) && |q| == NumBlocks(|data|) && |data| < U32_LIMIT
    modifies v`d, v`log
    ensures v.Valid() && Rewritten(d0, v.d, v.geo, v.csum, files, ino, q, data)
    ensures UsedSet(v.d, v.geo) == UsedSet(d1, v.geo) + Elems(q)
    ensures BlocksOf(v.log) == BlocksOf(old(v.log)) + {InodeBlock(ino)} && OwnNew(v.geo, files, ino, q)
  {
    hide InoUsed, FsOk, Mid, Accounting, UsedSet, Elems, Holds, Kept, Overwrite, BlocksOf, R16, InodeAt, InodeBlock,
         IsIno, Rewritten, CloseRaw, AreaOf, Mode, R32, Saved, IsAcct, Distinct, DataList, Chunks, Changed;
    MidWritten(d0, d1, v.d, v.geo, files, ino, q, data);
    NewIsOwn(d1, v.d, v.geo, files, ino, q, data);
    MidFacts(d0, v.d, v.geo, files, ino);
    CloseReads(raw, |data|, q);
    ChunksData(v.d, q, data);
    RewriteDone(d0, v.d, v.geo, v.csum, files, ino, CloseRaw(raw, |data|), q, data);
    Save(v, ino, CloseRaw(raw, |data|));
  }

  lemma ChunksData(d: Disk, p: seq<nat>, data: seq<Byte>)
    requires |p| == NumBlocks(|data|) && Chunks(d, p, data)
    ensures DataAt(d, p, data)
  {
    ChunksAreData(d, p, data);
  }

  /** write_file from the point where the inode is known. The answer is known beforehand: the file
      gets the lowest blocks that are free once its old ones are released, and writing succeeds
      exactly if there are enough of them and they make at most four runs. Then the file holds exactly
      `data`, in those blocks. Otherwise the file is empty; with a fifth run, one more block is lost.
      Every other file keeps its inode and its blocks. `w` are the new blocks that were written on the
      way, the lowest ones in order. */
  method WriteData(v: Device, ino: nat, existing: bool, data: seq<Byte>, ghost files: FileMap)
    returns (err: Option<FsErr>, ghost q: seq<nat>, ghost lost: seq<nat>, ghost w: seq<nat>)
    requires v.Valid() && FsOk(v.d, v.geo, v.csum, files) && IsIno(v.geo, ino) && (existing <==> ino in files)
      && |data| < U32_LIMIT
    requires InoUsed(v.d, ino)
    modifies v`d, v`log
    ensures v.Valid()
    ensures err == Outcome(FreeList(UsedSet(old(v.d), v.geo) - Elems(OldBlocks(files, ino)), v.geo.total),
                           NumBlocks(|data|))
    ensures err.None? ==>
              && Rewritten(old(v.d), v.d, v.geo, v.csum, files, ino, q, data) && |q| == NumBlocks(|data|) && lost == []
                 && w == q
    ensures err.Some? ==>
              Rewritten(old(v.d), v.d, v.geo, v.csum, files, ino, [], []) && q == [] && Failure(err.value, lost)
    ensures UsedSet(v.d, v.geo) == UsedSet(old(v.d), v.geo) - Elems(OldBlocks(files, ino)) + Elems(q) + Elems(lost)
    ensures OnlyWrote(BlocksOf(old(v.log)), BlocksOf(v.log), Elems(w) + {InodeBlock(ino)})
    ensures OwnNew(v.geo, files, ino, w) && |w| <= NumBlocks(|data|) && Elems(lost) <= Elems(w)
    ensures InLine(FreeList(UsedSet(old(v.d), v.geo) - Elems(OldBlocks(files, ino)), v.geo.total), w)
  {
    hide InoUsed, FsOk, Mid, Accounting, UsedSet, Elems, Holds, Overwrite, BlocksOf, R16, InodeAt, InodeBlock, IsIno,
         Rewritten, R32, Saved, Writing, OnlyWrote, OldBlocks, MetaUsed, Failure, Outcome, FreeList, OwnNew, InLine;
    ghost var d0, before := v.d, BlocksOf(v.log);
    NoElems();
    var raw0 := StartOver(v, ino, existing, files);
    ghost var d1, mid := v.d, BlocksOf(v.log);
    MidFacts(d0, d1, v.geo, files, ino);
    if data == [] {
      NoBlocks();
      NothingNeeded(FreeList(UsedSet(d1, v.geo), v.geo.total));
      NoneInLine(FreeList(UsedSet(d1, v.geo), v.geo.total));
      OnlyWroteMore(before, mid, {InodeBlock(ino)}, Elems([]));
      NoneIsOwn(v.geo, files, ino);
      return None, [], [], [];
    }
    var raw := ArrayOf(raw0);
    assert AreaOf(raw0) == raw[40..100];
    var r;
    r, q, lost := WriteChunks(v, raw, data, d1);
    SameRecord(raw0, raw[..], q);
    ghost var wrote := BlocksOf(v.log);
    if r.Some? {
      w := q + lost;
      ElemsBehind(q, lost);
      GiveUp(v, ino, raw[..], d0, d1, files, q, lost, data);
      OnlyWroteAll(before, mid, wrote, BlocksOf(v.log), Elems(w), InodeBlock(ino));
      return r, [], lost, w;
    }
    assert q + [] == q;
    Finish(v, ino, raw[..], data, d0, d1, files, q);
    OnlyWroteOne(wrote, BlocksOf(v.log), InodeBlock(ino));
    OnlyWroteAll(before, mid, wrote, BlocksOf(v.log), Elems(q), InodeBlock(ino));
    return None, q, [], q;
  }

  lemma ElemsBehind(p: seq<nat>, q: seq<nat>)
    ensures Elems(q) <= Elems(p + q)
  {
  }

  lemma NothingNeeded(f: seq<nat>)
    ensures Outcome(f, 0) == None
  {
    assert f[..0] == [];
  }

  lemma NoneIsOwn(geo: Geometry, files: FileMap, ino: nat)
    ensures OwnNew(geo, files, ino, [])
  {
    hide Kept;
  }

  lemma OnlyWroteOne(b: set<nat>, c: set<nat>, x: nat)
    requires c == b + {x}
    ensures OnlyWrote(b, c, {x})
  {
  }

  /** The file can be written exactly if enough blocks are free and the lowest ones make at most four runs. */
  lemma WritableIff(d: Disk, geo: Geometry, released: set<nat>, n: nat)
    ensures var used := UsedSet(d, geo) - released; var free := FreeList(used, geo.total);
      && |free| == geo.total - |used|
      && (Outcome(free, n) == None <==> n <= |free| && |RunsOf(free[..n])| <= MAX_ENTRIES)
  {
    hide RunsOf, FreeList, Used;
    assert UsedSet(d, geo) - released <= Range(0, geo.total);
    FreeCount(UsedSet(d, geo) - released, geo.total);
  }

  lemma NoBlocks()
    ensures NumBlocks(0) == 0 && Elems([]) == {}
  {
  }

  lemma OnlyWroteMore(a: set<nat>, b: set<nat>, s: set<nat>, t: set<nat>)
    requires OnlyWrote(a, b, s)
    ensures OnlyWrote(a, b, t + s)
  {
    hide IsAcct;
  }

  lemma OnlyWroteAll(a: set<nat>, b: set<nat>, c: set<nat>, e: set<nat>, s: set<nat>, x: nat)
    requires OnlyWrote(a, b, {x}) && OnlyWrote(b, c, s) && OnlyWrote(c, e, {x})
    ensures OnlyWrote(a, e, s + {x})
  {
    hide IsAcct;
  }

  /** Appending changed nothing of the record but its extent area. */
  lemma SameRecord(raw: Raw, r: Raw, q: seq<nat>)
    requires RecordIs(raw, 0, []) && r[..40] == raw[..40] && r[100..] == raw[100..] && Holds(r[40..100], q)
    ensures RecordIs(r, 0, q)
  {
    hide Holds;
    assert forall i :: 0 <= i < 40 ==> r[i] == r[..40][i] == raw[..40][i] == raw[i];
    assert forall i :: 100 <= i < 256 ==> r[i] == r[100..][i - 100] == raw[100..][i - 100] == raw[i];
  }
}
