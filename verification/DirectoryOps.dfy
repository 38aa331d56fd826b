/** Directory operations on the volume: lookup, insertion with growth, deletion, each proved to do
    to the directory's map what its name says and nothing to any other file. */
module DirectoryOps {
  import opened Bytes
  import opened Collections
  import opened Wrappers
  import opened Disk
  import opened Extents
  import opened Volume
  import opened Inodes
  import opened Files
  import opened FileSystem
  import opened FreeSpace
  import opened FileWrite
  import opened Directory

  // ---- a directory as the entries of its blocks ----

  ghost predicate DirOk(d: Disk, p: seq<nat>) {
    forall i: nat :: i < |p| ==> DirBlockOk(d, p, i)
  }

  predicate DirBlockOk(d: Disk, p: seq<nat>, i: nat) {
    i < |p| && p[i] < |d| && BlockOk(d[p[i]])
  }

  /** All entries, block by block. */
  function Entries(d: Disk, p: seq<nat>): seq<DirEnt> {
    if p == [] then []
    else
      var n := |p| - 1;
      Entries(d, p[..n]) + if p[n] < |d| && BlockOk(d[p[n]]) then Live(d[p[n]]) else []
  }

  function DirView(d: Disk, p: seq<nat>): DirMap { AsMap(Entries(d, p)) }

  /** The inode says it is a directory of exactly these blocks. */
  ghost predicate IsDirectory(d: Disk, ino: nat, p: seq<nat>) {
    && ino >= 1 && InodeBlock(ino) < |d|
    && Mode(InodeAt(d, ino)) / 0x4000 % 2 == 1 && Size(InodeAt(d, ino)) == 4096 * |p|
  }

  /** The entries from block `k` on. */
  function EntriesFrom(d: Disk, p: seq<nat>, k: nat): seq<DirEnt>
    requires k <= |p|
    decreases |p| - k
  {
    if k == |p| then []
    else (if p[k] < |d| && BlockOk(d[p[k]]) then Live(d[p[k]]) else []) + EntriesFrom(d, p, k + 1)
  }

  lemma {:induction false} EntriesSplit(d: Disk, p: seq<nat>, k: nat)
    requires k <= |p|
    ensures Entries(d, p) == Entries(d, p[..k]) + EntriesFrom(d, p, k)
    decreases |p| - k
  {
    hide Live, BlockOk;
    if k < |p| {
      EntriesSplit(d, p, k + 1);
      assert p[..k + 1][..k] == p[..k];
    } else {
      assert p[..k] == p;
    }
  }

  lemma {:induction false} SameEntries(d: Disk, e: Disk, p: seq<nat>)
    requires |e| == |d| && forall i :: 0 <= i < |p| ==> p[i] < |d| && e[p[i]] == d[p[i]]
    ensures Entries(e, p) == Entries(d, p)
  {
    hide Live, BlockOk;
    if p != [] {
      SameEntries(d, e, p[..|p| - 1]);
    }
  }

  lemma {:induction false} SameEntriesFrom(d: Disk, e: Disk, p: seq<nat>, k: nat)
    requires k <= |p| && |e| == |d| && forall i :: k <= i < |p| ==> p[i] < |d| && e[p[i]] == d[p[i]]
    ensures EntriesFrom(e, p, k) == EntriesFrom(d, p, k)
    decreases |p| - k
  {
    hide Live, BlockOk;
    if k < |p| {
      SameEntriesFrom(d, e, p, k + 1);
    }
  }

  /** Replacing one block replaces its stretch of the list. */
  lemma EntriesPut(d: Disk, p: seq<nat>, k: nat, c: Block) returns (x: seq<DirEnt>, y: seq<DirEnt>)
    requires Distinct(p) && DirOk(d, p) && k < |p| && p[k] < |d| && BlockOk(c)
    ensures DirBlockOk(d, p, k) && Entries(d, p) == x + Live(d[p[k]]) + y
    ensures Entries(Put(d, p[k], c), p) == x + Live(c) + y
    ensures DirOk(Put(d, p[k], c), p)
  {
    var e := Put(d, p[k], c);
    PutBlocks(d, p, k, c);
    assert DirBlockOk(d, p, k);
    hide Live, BlockOk, Put, Entries, EntriesFrom, DirBlockOk;
    x, y := Entries(d, p[..k]), EntriesFrom(d, p, k + 1);
    EntriesAround(d, p, k);
    EntriesAround(e, p, k);
    SameEntries(d, e, p[..k]);
    SameEntriesFrom(d, e, p, k + 1);
  }

  /** The list around the entries of block `k`. */
  lemma EntriesAround(d: Disk, p: seq<nat>, k: nat)
    requires k < |p| && p[k] < |d| && BlockOk(d[p[k]])
    ensures Entries(d, p) == Entries(d, p[..k]) + Live(d[p[k]]) + EntriesFrom(d, p, k + 1)
  {
    hide Live, BlockOk, Entries;
    EntriesSplit(d, p, k);
  }

  lemma PutBlocks(d: Disk, p: seq<nat>, k: nat, c: Block)
    requires Distinct(p) && DirOk(d, p) && k < |p| && p[k] < |d| && BlockOk(c)
    ensures var e := Put(d, p[k], c);
      DirOk(e, p) && forall i: nat :: i < |p| ==> p[i] < |d| && e[p[i]] == if i == k then c else d[p[i]]
  {
    hide BlockOk, Put;
    var e := Put(d, p[k], c);
    forall i: nat | i < |p|
      ensures p[i] < |d| && e[p[i]] == (if i == k then c else d[p[i]]) && DirBlockOk(e, p, i)
    {
      assert DirBlockOk(d, p, i);
      PutAt(d, p[k], c, p[i]);
    }
  }

  // ---- lookup ----

  /** No entry of the list has the name. */
  ghost predicate Absent(es: seq<DirEnt>, name: seq<Byte>) {
    forall i :: 0 <= i < |es| ==> es[i].name != name
  }

  lemma AbsentMap(es: seq<DirEnt>, name: seq<Byte>)
    ensures Absent(es, name) <==> name !in AsMap(es)
  {
    AsMapKeys(es, name);
  }

  lemma FirstMatch(a: seq<DirEnt>, e: DirEnt, b: seq<DirEnt>)
    requires Absent(a, e.name)
    ensures e.name in AsMap(a + [e] + b) && AsMap(a + [e] + b)[e.name] == e.target
  {
    AbsentMap(a, e.name);
    AsMapConcat(a + [e], b);
    AsMapConcat(a, [e]);
    OneEntry(e);
  }

  /** The walk of one block: the first record in use with the name, or none. */
  method FindInBlock(b: Block, name: seq<Byte>) returns (r: Option<nat>)
    requires BlockOk(b)
    ensures r.Some? ==>
              && TiledFrom(b, 0) && r.value < 4096 && Reaches(b, 0, r.value) && RecordOk(b, r.value)
                 && InoAt(b, r.value) != 0
              && EntAt(b, r.value).name == name && Absent(Before(b, 0, r.value), name)
    ensures r.None? ==> Absent(Live(b), name)
  {
    hide Live, LiveFrom, Before, Reaches, TiledFrom, EntAt, Here;
    BlockCases(b);
    var o := 0;
    while o + 8 <= 4096
      invariant o <= 4096
      invariant TiledFrom(b, 0) ==> Reaches(b, 0, o) && Absent(Before(b, 0, o), name)
      invariant !TiledFrom(b, 0) ==> o == 0
      decreases 4096 - o
    {
      var rec := RecAt(b, o);
      if rec == 0 || o + rec > 4096 {
        WalkStops(b, o, name);
        return None;
      }
      ReachNext(b, 0, o);
      HereIs(b, o);
      if InoAt(b, o) != 0 {
        var e := EntAt(b, o);
        if e.name == name {
          return Some(o);
        }
      }
      AbsentConcat(Before(b, 0, o), Here(b, o), name);
      ReachTiled(b, 0, o + rec);
      o := o + rec;
    }
    WalkEnds(b, o, name);
    return None;
  }

  lemma BlockCases(b: Block)
    requires BlockOk(b)
    ensures TiledFrom(b, 0) ==> Reaches(b, 0, 0) && Before(b, 0, 0) == []
    ensures !TiledFrom(b, 0) ==> RecAt(b, 0) == 0 && InoAt(b, 0) == 0 && Live(b) == []
  {
  }

  /** The entries of a block around a record in use. */
  lemma LiveAround(b: Block, o: nat)
    requires TiledFrom(b, 0) && o < 4096 && Reaches(b, 0, o) && RecordOk(b, o) && InoAt(b, o) != 0
    ensures TiledFrom(b, o + RecAt(b, o)) && Live(b) == Before(b, 0, o) + [EntAt(b, o)] + LiveFrom(b, o + RecAt(b, o))
  {
    ReachTiled(b, 0, o);
    hide EntAt, InoAt, RecAt, Before;
  }

  lemma HereIs(b: Block, o: nat)
    requires RecordOk(b, o)
    ensures InoAt(b, o) != 0 ==> o + 8 + b[o + 6] <= 4096 && Here(b, o) == [EntAt(b, o)]
    ensures InoAt(b, o) == 0 ==> Here(b, o) == []
  {
  }

  lemma AbsentConcat(a: seq<DirEnt>, b: seq<DirEnt>, name: seq<Byte>)
    requires Absent(a, name) && Absent(b, name)
    ensures Absent(a + b, name)
  {
  }

  /** The walk leaves a block early only if the block was never written. */
  lemma WalkStops(b: Block, o: nat, name: seq<Byte>)
    requires BlockOk(b) && o + 8 <= 4096 && (RecAt(b, o) == 0 || o + RecAt(b, o) > 4096)
    requires TiledFrom(b, 0) ==> Reaches(b, 0, o)
    ensures Absent(Live(b), name)
  {
    if TiledFrom(b, 0) {
      ReachNext(b, 0, o);
    }
  }

  lemma WalkEnds(b: Block, o: nat, name: seq<Byte>)
    requires BlockOk(b) && 4096 < o + 8 <= 4104 && (!TiledFrom(b, 0) ==> o == 0)
    requires TiledFrom(b, 0) ==> Reaches(b, 0, o) && Absent(Before(b, 0, o), name)
    ensures Absent(Live(b), name)
  {
    ReachTiled(b, 0, o);
    EndTiled(b);
  }

  /** A record for a directory: the two fields a walk reads. */
  lemma DirInode(d: Disk, ino: nat, p: seq<nat>)
    requires IsDirectory(d, ino, p)
    ensures Size(InodeAt(d, ino)) == 4096 * |p| && Mode(InodeAt(d, ino)) / 0x4000 % 2 == 1
  {
  }

  /** lookup_dir */
  method Lookup(v: Device, ino: nat, name: seq<Byte>, ghost p: seq<nat>) returns (r: Result<Target, FsErr>)
    requires Accounting(v.d, v.geo) && InodeOk(v.d, v.geo, v.csum, ino, p) && DirOk(v.d, p)
    requires Mode(InodeAt(v.d, ino)) / 0x4000 % 2 == 1 ==> IsDirectory(v.d, ino, p)
    ensures r == if Mode(InodeAt(v.d, ino)) / 0x4000 % 2 != 1 then Err(NotDir)
                 else if name in DirView(v.d, p) then Ok(DirView(v.d, p)[name]) else Err(NotFound)
  {
    hide Accounting, Holds, CsumOk, InodeAt, AreaOf, IsIno, InodeBlock, R16, IsDirectory, Mode, Size, Entries, Absent,
         BlockOk, Live, EntAt, AsMap, DirView, DirOk;
    RecordFits(v.d, v.geo, v.csum, ino, p);
    var got := Load(v, ino);
    if got.Err? {
      return Err(Io);
    }
    var raw := got.value;
    if Mode(raw) / 0x4000 % 2 != 1 {
      return Err(NotDir);
    }
    DirInode(v.d, ino, p);
    var ib := AreaOf(raw);
    var k := 0;
    AbsentNowhere(v.d, p, name);
    while 4096 * k < Size(raw)
      invariant k <= |p| && Absent(Entries(v.d, p[..k]), name)
      decreases |p| - k
    {
      var phys := ExtentMap(ib, k, p);
      if phys.None? {
        return Err(Io);
      }
      BlockAt(v.d, p, k);
      var b := v.ReadBlock(phys.value);
      var o := FindInBlock(b, name);
      if o.Some? {
        FoundIn(v.d, p, k, o.value, name);
        return Ok(EntAt(b, o.value).target);
      }
      AbsentStep(v.d, p, k, name);
      k := k + 1;
    }
    assert p[..k] == p;
    NotInView(v.d, p, name);
    return Err(NotFound);
  }

  lemma AbsentNowhere(d: Disk, p: seq<nat>, name: seq<Byte>)
    ensures Absent(Entries(d, p[..0]), name)
  {
  }

  lemma BlockAt(d: Disk, p: seq<nat>, k: nat)
    requires DirOk(d, p) && k < |p|
    ensures p[k] < |d| && BlockOk(d[p[k]])
  {
    assert DirBlockOk(d, p, k);
  }

  lemma NotInView(d: Disk, p: seq<nat>, name: seq<Byte>)
    requires Absent(Entries(d, p), name)
    ensures name !in DirView(d, p)
  {
    AbsentMap(Entries(d, p), name);
  }

  lemma AbsentStep(d: Disk, p: seq<nat>, k: nat, name: seq<Byte>)
    requires k < |p| && p[k] < |d| && BlockOk(d[p[k]]) && Absent(Entries(d, p[..k]), name)
      && Absent(Live(d[p[k]]), name)
    ensures Absent(Entries(d, p[..k + 1]), name)
  {
    hide BlockOk, Live;
    assert p[..k + 1][..k] == p[..k];
    AbsentConcat(Entries(d, p[..k]), Live(d[p[k]]), name);
  }

  /** The first record with the name decides the lookup. */
  lemma FoundIn(d: Disk, p: seq<nat>, k: nat, o: nat, name: seq<Byte>)
    requires k < |p| && p[k] < |d| && BlockOk(d[p[k]]) && Absent(Entries(d, p[..k]), name)
    requires var b := d[p[k]];
      && TiledFrom(b, 0) && o < 4096 && Reaches(b, 0, o) && RecordOk(b, o) && InoAt(b, o) != 0
      && EntAt(b, o).name == name && Absent(Before(b, 0, o), name)
    ensures name in DirView(d, p) && DirView(d, p)[name] == EntAt(d[p[k]], o).target
  {
    var b := d[p[k]];
    LiveAround(b, o);
    EntriesAround(d, p, k);
    hide EntAt, AsMap, Absent, Entries, EntriesFrom, TiledFrom, LiveFrom, Before, Live, BlockOk, RecAt, InoAt,
         Reaches, RecordOk;
    var e := EntAt(b, o);
    var pre, post := Entries(d, p[..k]) + Before(b, 0, o), LiveFrom(b, o + RecAt(b, o)) + EntriesFrom(d, p, k + 1);
    AbsentConcat(Entries(d, p[..k]), Before(b, 0, o), name);
    Regroup(Entries(d, p[..k]), Before(b, 0, o), e, LiveFrom(b, o + RecAt(b, o)), EntriesFrom(d, p, k + 1));
    FirstMatch(pre, e, post);
  }

  lemma Regroup(a: seq<DirEnt>, b: seq<DirEnt>, e: DirEnt, c: seq<DirEnt>, f: seq<DirEnt>)
    ensures a + (b + [e] + c) + f == (a + b) + [e] + (c + f)
    ensures a + (b + c) + f == (a + b) + (c + f)
  {
  }

  // ---- a directory in a file system ----

  /** The file system is sound and inode `ino` is a directory whose names are distinct. */
  ghost predicate DirState(d: Disk, geo: Geometry, csum: bool, files: FileMap, ino: nat) {
    && FsOk(d, geo, csum, files) && ino in files
    && IsDirectory(d, ino, files[ino]) && DirOk(d, files[ino]) && DistinctNames(Entries(d, files[ino]))
  }

  /** The map of the directory. */
  function ViewOf(d: Disk, files: FileMap, ino: nat): DirMap {
    if ino in files then DirView(d, files[ino]) else map[]
  }

  lemma StateFacts(d: Disk, geo: Geometry, csum: bool, files: FileMap, ino: nat)
    requires FsOk(d, geo, csum, files) && ino in files
    ensures Accounting(d, geo) && ValidGeo(geo) && geo.total <= |d| && FileOk(d, geo, csum, ino, files[ino])
      && Distinct(files[ino])
    ensures MetaUsed(d, geo) && DataList(geo, files[ino]) && InoUsed(d, ino)
  {
    hide GroupOk, InodeOk, InoUsed;
    assert FileOk(d, geo, csum, ino, files[ino]);
    hide UsedSet;
    InBounds(d, geo, files[ino]);
  }

  /** Rewriting one block of a directory with records leaves the file system sound. */
  lemma DirWrite(d: Disk, geo: Geometry, csum: bool, files: FileMap, ino: nat, k: nat, c: Block)
    requires FsOk(d, geo, csum, files) && ino in files && k < |files[ino]| && IsDirectory(d, ino, files[ino])
    ensures var blk := files[ino][k];
      && blk < |d| && FsOk(Put(d, blk, c), geo, csum, files) && UsedSet(Put(d, blk, c), geo) == UsedSet(d, geo)
      && OthersKept(d, Put(d, blk, c), geo, ino, Kept(files, ino)) && IsDirectory(Put(d, blk, c), ino, files[ino])
  {
    hide *;
    var p, blk := files[ino], files[ino][k];
    BlockOfFile(d, geo, csum, files, ino, k);
    var e := Put(d, blk, c);
    DataWriteSet(d, geo, blk, c);
    SameDataRefl(d);
    PutChanged(d, d, blk, c);
    OneBlock(geo, blk, Kept(files, ino), p);
    OthersWrites(d, e, geo, ino, Kept(files, ino), {blk});
    MetaStays(d, e, geo, {});
    FileOkStays(d, e, geo, csum, ino, p, blk);
    FsReplaced(d, e, geo, csum, files, ino, p);
    DirectoryStays(d, e, geo, csum, ino, p, blk);
    assert files[ino := p] == files;
  }

  /** A block of a file: data of the volume, in no other file. */
  lemma BlockOfFile(d: Disk, geo: Geometry, csum: bool, files: FileMap, ino: nat, k: nat)
    requires FsOk(d, geo, csum, files) && ino in files && k < |files[ino]|
    ensures var p, blk := files[ino], files[ino][k];
      && ValidGeo(geo) && geo.total <= |d| && 1 < blk < geo.total && BitOf(blk) >= 4 && !IsMeta(blk) && blk in p
      && Accounting(d, geo) && MetaUsed(d, geo) && FileOk(d, geo, csum, ino, p) && InoUsed(d, ino)
      && DataOnly(geo, Kept(files, ino)) && Kept(files, ino) <= UsedSet(d, geo) && Kept(files, ino) !! Elems(p)
  {
    StateFacts(d, geo, csum, files, ino);
    KeptFacts(d, geo, csum, files, ino);
    hide *;
    var p, blk := files[ino], files[ino][k];
    assert blk in p;
    InList(geo, p, blk);
    BeyondBoot(blk);
  }

  lemma InList(geo: Geometry, p: seq<nat>, blk: nat)
    requires DataList(geo, p) && blk in p
    ensures blk < geo.total && !IsMeta(blk)
  {
    hide IsMeta;
  }

  lemma FileOkStays(d: Disk, e: Disk, geo: Geometry, csum: bool, ino: nat, p: seq<nat>, blk: nat)
    requires ValidGeo(geo) && geo.total <= |d| && FileOk(d, geo, csum, ino, p)
    requires !IsMeta(blk) && |e| == |d| && Changed(d, e, {blk}) && UsedSet(e, geo) == UsedSet(d, geo)
    ensures FileOk(e, geo, csum, ino, p)
  {
    hide IsIno, InodeBlock, InodeAt, IsMeta, CsumOk, Holds, AreaOf, UsedSet, Changed;
    InodeStays(d, e, geo, ino, blk);
  }

  lemma DirectoryStays(d: Disk, e: Disk, geo: Geometry, csum: bool, ino: nat, p: seq<nat>, blk: nat)
    requires ValidGeo(geo) && geo.total <= |d| && FileOk(d, geo, csum, ino, p) && IsDirectory(d, ino, p)
    requires !IsMeta(blk) && |e| == |d| && Changed(d, e, {blk})
    ensures IsDirectory(e, ino, p)
  {
    hide IsIno, InodeBlock, InodeAt, IsMeta, CsumOk, Holds, AreaOf, OwnBlocks, Changed, Mode, Size;
    InodeStays(d, e, geo, ino, blk);
  }

  lemma OneBlock(geo: Geometry, blk: nat, keep: set<nat>, p: seq<nat>)
    requires blk < geo.total && !IsMeta(blk) && blk in p && keep !! Elems(p)
    ensures DataOnly(geo, {blk}) && keep !! {blk}
  {
  }

  lemma InodeStays(d: Disk, e: Disk, geo: Geometry, ino: nat, blk: nat)
    requires ValidGeo(geo) && geo.total <= |d| && IsIno(geo, ino) && !IsMeta(blk) && Changed(d, e, {blk})
    ensures ino >= 1 && InodeBlock(ino) < |d| && InodeAt(e, ino) == InodeAt(d, ino)
  {
    hide IsIno, InodeBlock, IsMeta, IsAcct;
    InoIs(geo, ino);
  }

  /** The record at `o` is in use and carries the name. */
  predicate IsRecordOf(b: Block, o: nat, name: seq<Byte>) {
    && TiledFrom(b, 0) && o < 4096 && Reaches(b, 0, o) && RecordOk(b, o) && InoAt(b, o) != 0
    && EntAt(b, o).name == name
  }

  /** The walk of dir_del over the directory's blocks. */
  method FindEntry(v: Device, ib: Area, size: nat, name: seq<Byte>, ghost p: seq<nat>)
    returns (r: Result<bool, FsErr>, ghost k: nat, blk: nat, b: Block, o: nat)
    requires Holds(ib, p) && size == 4096 * |p| && DirOk(v.d, p)
    ensures r.Ok?
    ensures r.value ==> k < |p| && blk == p[k] < |v.d| && b == v.d[blk] && IsRecordOf(b, o, name)
    ensures !r.value ==> name !in DirView(v.d, p)
  {
    hide Holds, Entries, Absent, BlockOk, Live, LiveFrom, Before, EntAt, DirView, DirOk, TiledFrom, Reaches, RecordOk;
    k, blk, b, o := 0, 0, ZERO_BLOCK, 0;
    AbsentNowhere(v.d, p, name);
    var logical := 0;
    while 4096 * logical < size
      invariant k == logical <= |p| && Absent(Entries(v.d, p[..k]), name)
      decreases |p| - k
    {
      var phys := ExtentMap(ib, logical, p);
      if phys.None? {
        return Err(Io), k, blk, b, o;
      }
      BlockAt(v.d, p, k);
      blk := phys.value;
      b := v.ReadBlock(blk);
      var at := FindInBlock(b, name);
      if at.Some? {
        return Ok(true), k, blk, b, at.value;
      }
      AbsentStep(v.d, p, k, name);
      k, logical := k + 1, logical + 1;
    }
    assert p[..k] == p;
    NotInView(v.d, p, name);
    return Ok(false), k, blk, b, o;
  }

  /** One block of the directory was replaced, turning the list `es` of its entries into `es'`. */
  lemma DirReplaced(d: Disk, geo: Geometry, csum: bool, files: FileMap, ino: nat, k: nat, c: Block)
    returns (x: seq<DirEnt>, y: seq<DirEnt>)
    requires DirState(d, geo, csum, files, ino) && k < |files[ino]| && BlockOk(c)
    ensures var p := files[ino]; var blk := p[k];
      && blk < |d| && BlockOk(d[blk]) && Entries(d, p) == x + Live(d[blk]) + y
      && Entries(Put(d, blk, c), p) == x + Live(c) + y
      && (DistinctNames(x + Live(c) + y) ==> DirState(Put(d, blk, c), geo, csum, files, ino))
      && OthersKept(d, Put(d, blk, c), geo, ino, Kept(files, ino)) && UsedSet(Put(d, blk, c), geo) == UsedSet(d, geo)
  {
    var p := files[ino];
    DirWrite(d, geo, csum, files, ino, k, c);
    StateFacts(d, geo, csum, files, ino);
    hide FsOk, Accounting, IsDirectory, FileOk, MetaUsed, DataList, Distinct, Put, Entries, Live, BlockOk, OthersKept,
         Kept, DistinctNames, UsedSet;
    x, y := EntriesPut(d, p, k, c);
  }

  lemma DelEffect(d: Disk, geo: Geometry, csum: bool, files: FileMap, ino: nat, k: nat, o: nat, name: seq<Byte>)
    requires DirState(d, geo, csum, files, ino) && k < |files[ino]| && files[ino][k] < |d|
      && IsRecordOf(d[files[ino][k]], o, name)
    ensures var blk := files[ino][k]; var e := Put(d, blk, Cleared(d[blk], o));
      && DirState(e, geo, csum, files, ino) && OthersKept(d, e, geo, ino, Kept(files, ino))
      && name in ViewOf(d, files, ino) && ViewOf(e, files, ino) == ViewOf(d, files, ino) - {name}
      && UsedSet(e, geo) == UsedSet(d, geo)
  {
    var blk := files[ino][k];
    var b := d[blk];
    var x, y := ClearRemoves(b, o);
    var u, w := DirReplaced(d, geo, csum, files, ino, k, Cleared(b, o));
    hide UsedSet, DirState, Put, Entries, Live, BlockOk, OthersKept, Kept, DistinctNames, AsMap, Cleared, TiledFrom,
         Reaches, RecordOk, InoAt, EntAt;
    var ent := EntAt(b, o);
    Regroup(u, x, ent, y, w);
    RemoveEntry(u + x, ent, y + w);
    StateNames(d, geo, csum, files, ino);
  }

  lemma StateNames(d: Disk, geo: Geometry, csum: bool, files: FileMap, ino: nat)
    requires DirState(d, geo, csum, files, ino)
    ensures ino in files && DistinctNames(Entries(d, files[ino]))
  {
  }

  /** dir_del: the name disappears from the map, and nothing else changes. */
  method DirDel(v: Device, ino: nat, name: seq<Byte>, ghost files: FileMap) returns (err: Option<FsErr>)
    requires v.Valid() && DirState(v.d, v.geo, v.csum, files, ino)
    modifies v`d, v`log
    ensures v.Valid() && DirState(v.d, v.geo, v.csum, files, ino)
    ensures OthersKept(old(v.d), v.d, v.geo, ino, Kept(files, ino))
    ensures ViewOf(v.d, files, ino) == ViewOf(old(v.d), files, ino) - {name}
    ensures if name in ViewOf(old(v.d), files, ino) then err == None else err == Some(NotFound) && v.d == old(v.d)
    ensures UsedSet(v.d, v.geo) == UsedSet(old(v.d), v.geo)
      && Avoids(BlocksOf(old(v.log)), BlocksOf(v.log), Kept(files, ino))
    ensures Spent(BlocksOf(old(v.log)), BlocksOf(v.log), 1) && TallyMoves(old(v.d), v.d, ino, 0, 0)
    ensures err.None? ==> ino in files && RoomGained(old(v.d), v.d, files[ino], 8 + |name|)
  {
    hide UsedSet, Avoids, DirState, Accounting, Holds, CsumOk, InodeAt, AreaOf, IsIno, InodeBlock, R16, Size, BlockOk,
         AsMap, DirView, DirOk, Entries, OthersKept, Kept, Overwrite, Put, BlocksOf, Cleared, TiledFrom, Reaches,
         RecordOk, InoAt, EntAt, ViewOf, IsRecordOf, Live, Spent, TallyMoves, RoomGained;
    ghost var d, p := v.d, OldBlocks(files, ino);
    StateRecord(d, v.geo, v.csum, files, ino);
    DirTally(d, v.geo, v.csum, files, ino);
    OthersSame(d, v.geo, v.csum, files, ino);
    AvoidsSame(BlocksOf(v.log), Kept(files, ino));
    SpentSame(BlocksOf(v.log), 1);
    var got := Load(v, ino);
    if got.Err? {
      return Some(Io);
    }
    var raw := got.value;
    var r, k, blk, b, o := FindEntry(v, AreaOf(raw), Size(raw), name, p);
    if r.Err? {
      return Some(Io);
    }
    if !r.value {
      NoSuchName(d, files, ino, name);
      return Some(NotFound);
    }
    DelEffect(d, v.geo, v.csum, files, ino, k, o, name);
    RecordRoom(b, o, name);
    AvoidsOwn(d, v.geo, v.csum, files, ino, k, BlocksOf(v.log));
    SpentOne(BlocksOf(v.log), blk);
    DirNotBoot(d, v.geo, v.csum, files, ino, k);
    FilledTally(d, v.geo, v.csum, files, ino, k, Cleared(b, o));
    GapRoom(d, p, k, o, name) by {
      StateBlock(d, v.geo, v.csum, files, ino, k);
    }
    v.WriteBlock(blk, Cleared(b, o));
    return None;
  }

  lemma AvoidsSame(a: set<nat>, keep: set<nat>)
    ensures Avoids(a, a, keep)
  {
  }

  /** A directory's own blocks are no other file's. */
  lemma AvoidsOwn(d: Disk, geo: Geometry, csum: bool, files: FileMap, ino: nat, k: nat, a: set<nat>)
    requires DirState(d, geo, csum, files, ino) && k < |files[ino]|
    ensures Avoids(a, a + {files[ino][k]}, Kept(files, ino))
  {
    BlockOfFile(d, geo, csum, files, ino, k);
    hide Kept, Accounting, MetaUsed, FileOk, InoUsed, DirState;
    assert files[ino][k] in Elems(files[ino]);
  }

  lemma RecordRoom(b: Block, o: nat, name: seq<Byte>)
    requires IsRecordOf(b, o, name)
    ensures o + 8 <= 4096
  {
  }

  lemma NoSuchName(d: Disk, files: FileMap, ino: nat, name: seq<Byte>)
    requires ino in files && name !in DirView(d, files[ino])
    ensures name !in ViewOf(d, files, ino) && ViewOf(d, files, ino) - {name} == ViewOf(d, files, ino)
  {
    hide DirView;
  }

  /** What loading a directory's inode gives. */
  lemma StateRecord(d: Disk, geo: Geometry, csum: bool, files: FileMap, ino: nat)
    requires DirState(d, geo, csum, files, ino)
    ensures ino in files && OldBlocks(files, ino) == files[ino]
    ensures Accounting(d, geo) && IsIno(geo, ino) && ino < U32_LIMIT && InodeBlock(ino) < |d|
      && R16(InodeAt(d, ino), 128) <= 128
    ensures CsumOk(ino, InodeAt(d, ino), csum) && Holds(AreaOf(InodeAt(d, ino)), files[ino])
    ensures Size(InodeAt(d, ino)) == 4096 * |files[ino]| && DirOk(d, files[ino])
  {
    StateFacts(d, geo, csum, files, ino);
    RecordFits(d, geo, csum, ino, files[ino]);
    DirInode(d, ino, files[ino]);
    hide Accounting, CsumOk, InodeAt, Holds, R16, OwnBlocks, IsDirectory, FsOk;
  }

  lemma OthersSame(d: Disk, geo: Geometry, csum: bool, files: FileMap, ino: nat)
    requires DirState(d, geo, csum, files, ino)
    ensures OthersKept(d, d, geo, ino, Kept(files, ino))
  {
    StateFacts(d, geo, csum, files, ino);
    KeptFacts(d, geo, csum, files, ino);
    OthersRefl(d, geo, ino, Kept(files, ino));
  }

  // ---- insertion ----

  /** A block as dir_grow leaves it. */
  predicate IsBlank(b: Block) { InoAt(b, 0) == 0 && RecAt(b, 0) == 0 }

  /** Some unused record from `o` on is at least `need` long. */
  predicate RoomFrom(b: Block, o: nat, need: nat)
    requires TiledFrom(b, o)
    decreases 4096 - o
  {
    o != 4096 && ((InoAt(b, o) == 0 && RecAt(b, o) >= need) || RoomFrom(b, o + RecAt(b, o), need))
  }

  /** The block has a place for a record of this length. */
  predicate HasRoom(b: Block, need: nat)
    requires BlockOk(b)
  {
    if TiledFrom(b, 0) then RoomFrom(b, 0, need) else need <= 4096
  }

  /** Some block of the directory has. */
  ghost predicate RoomIn(d: Disk, p: seq<nat>, need: nat) {
    exists i: nat :: i < |p| && RoomAt(d, p[i], need)
  }

  predicate RoomAt(d: Disk, x: nat, need: nat) { x < |d| && BlockOk(d[x]) && HasRoom(d[x], need) }

  lemma RoomStep(b: Block, o: nat, need: nat)
    requires TiledFrom(b, 0) && Reaches(b, 0, o) && o < 4096
    ensures TiledFrom(b, o) && RecordOk(b, o) && TiledFrom(b, o + RecAt(b, o)) && Reaches(b, 0, o + RecAt(b, o))
    ensures RoomFrom(b, o, need) <==> (InoAt(b, o) == 0 && RecAt(b, o) >= need) || RoomFrom(b, o + RecAt(b, o), need)
  {
    ReachTiled(b, 0, o);
    ReachNext(b, 0, o);
  }

  /** The walk of dir_find_slot over one block. */
  method SlotInBlock(b: Block, need: nat) returns (r: Option<(nat, nat)>)
    requires BlockOk(b) && need <= 4096
    ensures r.Some? ==> IsSlot(b, r.value.0, r.value.1) && need <= r.value.1 && r.value.0 + r.value.1 <= 4096
    ensures r.Some? <==> HasRoom(b, need)
  {
    hide LiveFrom, Before, TiledFrom, Reaches, Live, RoomFrom, InoAt, RecAt;
    BlockCases(b);
    NotTiled(b);
    RoomEnds(b, need);
    var o := 0;
    while o + 8 <= 4096
      invariant o <= 4096
      invariant TiledFrom(b, 0) ==> TiledFrom(b, o) && Reaches(b, 0, o) && (HasRoom(b, need) <==> RoomFrom(b, o, need))
      invariant !TiledFrom(b, 0) ==> o == 0
      decreases 4096 - o
    {
      if TiledFrom(b, 0) {
        RoomStep(b, o, need);
      }
      var rec := RecAt(b, o);
      if InoAt(b, o) == 0 && rec == 0 {
        if 4096 - o >= need {
          return Some((o, 4096 - o));
        }
        return None;
      }
      if rec == 0 || o + rec > 4096 {
        return None;
      }
      if InoAt(b, o) == 0 && rec >= need {
        return Some((o, rec));
      }
      o := o + rec;
    }
    if TiledFrom(b, 0) {
      ReachTiled(b, 0, o);
      EndOnly(b, o);
    }
    return None;
  }

  lemma RoomEnds(b: Block, need: nat)
    ensures TiledFrom(b, 4096) && !RoomFrom(b, 4096, need)
  {
  }

  lemma EndOnly(b: Block, o: nat)
    requires TiledFrom(b, o) && o + 8 > 4096
    ensures o == 4096
  {
  }

  /** dir_find_slot */
  method FindSlot(v: Device, ib: Area, size: nat, need: nat, ghost p: seq<nat>)
    returns (r: Result<bool, FsErr>, ghost k: nat, blk: nat, off: nat, avail: nat)
    requires Holds(ib, p) && size == 4096 * |p| && DirOk(v.d, p) && need <= 4096
    ensures r.Ok?
    ensures r.value ==>
              k < |p| && blk == p[k] < |v.d| && IsSlot(v.d[blk], off, avail) && need <= avail && off + avail <= 4096
    ensures r.value <==> RoomIn(v.d, p, need)
  {
    hide Holds, BlockOk, DirOk, IsSlot, HasRoom;
    k, blk, off, avail := 0, 0, 0, 0;
    var logical := 0;
    while 4096 * logical < size
      invariant k == logical <= |p| && forall i: nat :: i < k ==> !RoomAt(v.d, p[i], need)
      decreases |p| - k
    {
      var phys := ExtentMap(ib, logical, p);
      if phys.None? {
        return Err(Io), k, blk, off, avail;
      }
      BlockAt(v.d, p, k);
      blk := phys.value;
      var b := v.ReadBlock(blk);
      var at := SlotInBlock(b, need);
      assert at.Some? <==> RoomAt(v.d, p[k], need);
      if at.Some? {
        return Ok(true), k, blk, at.value.0, at.value.1;
      }
      k, logical := k + 1, logical + 1;
    }
    return Ok(false), k, blk, off, avail;
  }

  // ---- how much room is left ----

  lemma {:induction false} RoomForLess(b: Block, o: nat, n: nat, m: nat)
    requires TiledFrom(b, o) && RoomFrom(b, o, n) && m <= n
    ensures RoomFrom(b, o, m)
    decreases 4096 - o
  {
    hide InoAt, RecAt;
    if !(InoAt(b, o) == 0 && RecAt(b, o) >= n) {
      RoomForLess(b, o + RecAt(b, o), n, m);
    }
  }

  lemma {:induction false} RoomInTail(b: Block, c: Block, o: nat, n: nat)
    requires TiledFrom(b, o) && o <= 4096 && RoomFrom(b, o, n) && forall i :: o <= i < 4096 ==> c[i] == b[i]
    ensures TiledFrom(c, o) && RoomFrom(c, o, n)
    decreases 4096 - o
  {
    SameTail(b, c, o);
    SameFields(b, c, o);
    hide InoAt, RecAt;
    if !(InoAt(b, o) == 0 && RecAt(b, o) >= n) {
      RoomInTail(b, c, o + RecAt(b, o), n);
    }
  }

  lemma {:induction false} RoomBehind(c: Block, o: nat, off: nat, n: nat)
    requires TiledFrom(c, o) && Reaches(c, o, off) && TiledFrom(c, off) && RoomFrom(c, off, n)
    ensures RoomFrom(c, o, n)
    decreases 4096 - o
  {
    hide InoAt, RecAt;
    if o != off {
      RoomBehind(c, o + RecAt(c, o), off, n);
    }
  }

  /** Room in a block that changed behind `off` only is there still, or was behind `off`. */
  lemma {:induction false} RoomBefore(b: Block, c: Block, o: nat, off: nat, n: nat)
    requires TiledFrom(b, o) && Reaches(b, o, off) && TiledFrom(b, off) && off <= 4096 && RoomFrom(b, o, n)
    requires TiledFrom(c, o) && Reaches(c, o, off) && forall i :: o <= i < off ==> c[i] == b[i]
    ensures RoomFrom(c, o, n) || RoomFrom(b, off, n)
    decreases 4096 - o
  {
    if o != off {
      ReachTiled(b, o + RecAt(b, o), off);
      SameFields(b, c, o);
      hide InoAt, RecAt;
      if !(InoAt(b, o) == 0 && RecAt(b, o) >= n) {
        RoomBefore(b, c, o + RecAt(b, o), off, n);
      }
    }
  }

  /** An entry uses up no more than its own bytes: what fitted beside it still fits. */
  lemma FillLeaves(b: Block, off: nat, avail: nat, e: DirEnt, m: nat)
    requires BlockOk(b) && IsSlot(b, off, avail) && off + avail <= 4096
    requires |e.name| < 256 && 0 < e.target.ino < U32_LIMIT && Align4(8 + |e.name|) <= avail
    requires m >= 8 && HasRoom(b, Align4(8 + |e.name|) + m)
    ensures var c := Filled(b, off, avail, e); BlockOk(c) && HasRoom(c, m)
  {
    hide *;
    if TiledFrom(b, 0) {
      SlotIsRecord(b, off, avail);
      FillTiled(b, off, avail, e, m);
    } else {
      SlotIsBlock(b, off, avail);
      FillFresh(b, e, m);
    }
  }

  lemma SlotIsRecord(b: Block, off: nat, avail: nat)
    requires IsSlot(b, off, avail) && TiledFrom(b, 0)
    ensures Reaches(b, 0, off) && off + 8 <= 4096 && avail == RecAt(b, off) && off + avail <= 4096
  {
    NotTiled(b);
    hide InoAt, RecAt, Reaches, TiledFrom;
  }

  lemma SlotIsBlock(b: Block, off: nat, avail: nat)
    requires IsSlot(b, off, avail) && !TiledFrom(b, 0)
    ensures off == 0 && avail == 4096 && InoAt(b, 0) == 0 && RecAt(b, 0) == 0
  {
    hide InoAt, RecAt, Reaches, TiledFrom;
  }

  lemma FillTiled(b: Block, off: nat, avail: nat, e: DirEnt, m: nat)
    requires TiledFrom(b, 0) && Reaches(b, 0, off) && off + 8 <= 4096 && avail == RecAt(b, off) && off + avail <= 4096
    requires |e.name| < 256 && 0 < e.target.ino < U32_LIMIT && Align4(8 + |e.name|) <= avail
    requires m >= 8 && BlockOk(b) && HasRoom(b, Align4(8 + |e.name|) + m)
    ensures var c := Filled(b, off, avail, e); BlockOk(c) && HasRoom(c, m)
  {
    hide *;
    FilledRecords(b, off, avail, e);
    RoomInTiles(b, Align4(8 + |e.name|) + m);
    FillInTiles(b, Filled(b, off, avail, e), off, avail, Align4(8 + |e.name|), m);
  }

  lemma RoomInTiles(b: Block, n: nat)
    requires TiledFrom(b, 0) && BlockOk(b) && HasRoom(b, n)
    ensures RoomFrom(b, 0, n)
  {
    hide TiledFrom, RoomFrom;
  }

  lemma FillFresh(b: Block, e: DirEnt, m: nat)
    requires InoAt(b, 0) == 0 && RecAt(b, 0) == 0 && !TiledFrom(b, 0)
    requires |e.name| < 256 && 0 < e.target.ino < U32_LIMIT && Align4(8 + |e.name|) <= 4096
    requires m >= 8 && BlockOk(b) && HasRoom(b, Align4(8 + |e.name|) + m)
    ensures var c := Filled(b, 0, 4096, e); BlockOk(c) && HasRoom(c, m)
  {
    FilledRecords(b, 0, 4096, e);
    hide SlotFilled, Filled, Align4, InoAt, RecAt, RoomFrom, TiledFrom, Reaches, Live;
    FreshTiles(Filled(b, 0, 4096, e), Align4(8 + |e.name|), m);
  }

  lemma FreshTiles(c: Block, need: nat, m: nat)
    requires 8 <= need && need + m <= 4096 && m >= 8 && SlotFilled(c, 0, 4096, need)
    ensures BlockOk(c) && HasRoom(c, m)
  {
    hide InoAt, RecAt;
    EndTiled(c);
    assert RecordOk(c, need) && TiledFrom(c, need);
    assert RoomFrom(c, need, m);
  }

  lemma FilledTiles(b: Block, c: Block, off: nat, avail: nat, need: nat)
    requires TiledFrom(b, 0) && Reaches(b, 0, off) && off + 8 <= 4096 && avail == RecAt(b, off) && off + avail <= 4096
    requires SlotFilled(c, off, avail, need) && forall i :: 0 <= i < 4096 && !(off <= i < off + avail) ==> c[i] == b[i]
    ensures TiledFrom(b, off) && RecordOk(b, off) && TiledFrom(b, off + avail) && TiledFrom(c, off + avail)
    ensures TiledFrom(c, off) && (avail - need >= 8 ==> TiledFrom(c, off + need))
    ensures TiledFrom(c, 0) && Reaches(c, 0, off)
  {
    hide InoAt, RecAt, EntAt, Reaches, LiveFrom, Before;
    ReachNext(b, 0, off);
    SameTail(b, c, off + avail);
    assert avail - need >= 8 ==> TiledFrom(c, off + need);
    SameHead(b, c, 0, off);
  }

  lemma RoomInSlot(b: Block, c: Block, off: nat, avail: nat, need: nat, m: nat)
    requires off + 8 <= 4096 && avail == RecAt(b, off) && off + avail <= 4096 && m >= 8 && need <= avail
    requires TiledFrom(b, off) && TiledFrom(b, off + avail) && TiledFrom(c, off) && TiledFrom(c, off + avail)
    requires avail - need >= 8 ==> TiledFrom(c, off + need)
    requires SlotFilled(c, off, avail, need) && forall i :: off + avail <= i < 4096 ==> c[i] == b[i]
    requires RoomFrom(b, off, need + m)
    ensures RoomFrom(c, off, m)
  {
    hide InoAt, RecAt, EntAt, TiledFrom;
    if avail < need + m {
      RoomInTail(b, c, off + avail, need + m);
      RoomForLess(c, off + avail, need + m, m);
    }
    assert avail - need >= 8 ==> RoomFrom(c, off + need, m);
  }

  lemma FillInTiles(b: Block, c: Block, off: nat, avail: nat, need: nat, m: nat)
    requires TiledFrom(b, 0) && Reaches(b, 0, off) && off + 8 <= 4096 && avail == RecAt(b, off) && off + avail <= 4096
    requires 8 <= need <= avail && m >= 8 && RoomFrom(b, 0, need + m)
    requires SlotFilled(c, off, avail, need) && forall i :: 0 <= i < 4096 && !(off <= i < off + avail) ==> c[i] == b[i]
    ensures BlockOk(c) && HasRoom(c, m)
  {
    hide InoAt, RecAt, EntAt, Reaches, RoomFrom, TiledFrom, SlotFilled, RecordOk;
    FilledTiles(b, c, off, avail, need);
    RoomBefore(b, c, 0, off, need + m);
    if RoomFrom(c, 0, need + m) {
      RoomForLess(c, 0, need + m, m);
    } else {
      RoomInSlot(b, c, off, avail, need, m);
      RoomBehind(c, 0, off, m);
    }
  }

  /** Taking an entry out leaves its bytes for another one, and takes no room away. */
  lemma ClearLeaves(b: Block, off: nat, n: nat)
    requires BlockOk(b) && TiledFrom(b, 0) && Reaches(b, 0, off) && off < 4096 && RecordOk(b, off) && InoAt(b, off) != 0
    requires HasRoom(b, n) || 8 + b[off + 6] >= n
    ensures var c := Cleared(b, off); BlockOk(c) && HasRoom(c, n)
  {
    var c := Cleared(b, off);
    ClearedRecord(b, off);
    ReachNext(b, 0, off);
    hide Cleared, InoAt, RecAt, EntAt, RecordOk, Reaches, TiledFrom, RoomFrom, Live, LiveFrom, Before;
    ClearedTiles(b, c, off);
    if HasRoom(b, n) {
      RoomBefore(b, c, 0, off, n);
    }
    if !RoomFrom(c, 0, n) {
      RoomInCleared(b, c, off, n);
      RoomBehind(c, 0, off, n);
    }
  }

  lemma ClearedTiles(b: Block, c: Block, off: nat)
    requires TiledFrom(b, 0) && Reaches(b, 0, off) && off < 4096 && RecordOk(b, off) && RecordOk(c, off)
    requires RecAt(c, off) == RecAt(b, off) && forall i :: 0 <= i < 4096 && !(off <= i < off + 4) ==> c[i] == b[i]
    ensures TiledFrom(b, off) && TiledFrom(b, off + RecAt(b, off)) && TiledFrom(c, off + RecAt(b, off))
    ensures TiledFrom(c, off) && TiledFrom(c, 0) && Reaches(c, 0, off)
  {
    hide InoAt, EntAt, Reaches, LiveFrom, Before;
    ReachTiled(b, 0, off);
    SameTail(b, c, off + RecAt(b, off));
    SameHead(b, c, 0, off);
  }

  lemma RoomInCleared(b: Block, c: Block, off: nat, n: nat)
    requires off < 4096 && TiledFrom(b, off) && TiledFrom(c, off) && RecordOk(b, off) && InoAt(b, off) != 0
    requires InoAt(c, off) == 0 && RecAt(c, off) == RecAt(b, off) && TiledFrom(b, off + RecAt(b, off))
    requires forall i :: off + 4 <= i < 4096 ==> c[i] == b[i]
    requires RoomFrom(b, off, n) || 8 + b[off + 6] >= n
    ensures RoomFrom(c, off, n)
  {
    hide InoAt, EntAt, TiledFrom;
    if RoomFrom(b, off, n) {
      RoomInTail(b, c, off + RecAt(b, off), n);
    }
  }

  lemma HasRoomForLess(b: Block, n: nat, m: nat)
    requires BlockOk(b) && HasRoom(b, n) && m <= n
    ensures HasRoom(b, m)
  {
    hide TiledFrom, RoomFrom;
    if TiledFrom(b, 0) {
      RoomForLess(b, 0, n, m);
    }
  }

  /** Wherever there was room for `need` bytes and `m` more, there is room for `m`. */
  ghost predicate RoomLeft(d: Disk, e: Disk, p: seq<nat>, q: seq<nat>, need: nat) {
    forall m: nat :: m >= 8 && RoomIn(d, p, need + m) ==> RoomIn(e, q, m)
  }

  /** There is as much room as before, and room for `n` bytes. */
  ghost predicate RoomGained(d: Disk, e: Disk, p: seq<nat>, n: nat) {
    forall m: nat :: m <= n || RoomIn(d, p, m) ==> RoomIn(e, p, m)
  }

  lemma SlotRoom(d: Disk, p: seq<nat>, k: nat, off: nat, avail: nat, e: DirEnt)
    requires k < |p| && p[k] < |d| && BlockOk(d[p[k]]) && IsSlot(d[p[k]], off, avail) && off + avail <= 4096
    requires |e.name| < 256 && 0 < e.target.ino < U32_LIMIT && Align4(8 + |e.name|) <= avail
    ensures RoomLeft(d, Put(d, p[k], Filled(d[p[k]], off, avail, e)), p, p, Align4(8 + |e.name|))
  {
    hide Filled, BlockOk, HasRoom, IsSlot, Align4;
    var b, need := d[p[k]], Align4(8 + |e.name|);
    var c := Put(d, p[k], Filled(b, off, avail, e));
    forall m: nat | m >= 8 && RoomIn(d, p, need + m)
      ensures RoomIn(c, p, m)
    {
      var i: nat :| i < |p| && RoomAt(d, p[i], need + m);
      if p[i] == p[k] {
        FillLeaves(b, off, avail, e, m);
      } else {
        HasRoomForLess(d[p[i]], need + m, m);
      }
      assert RoomAt(c, p[i], m);
    }
  }

  lemma GapRoom(d: Disk, p: seq<nat>, k: nat, o: nat, name: seq<Byte>)
    requires k < |p| && p[k] < |d| && BlockOk(d[p[k]]) && IsRecordOf(d[p[k]], o, name)
    ensures RoomGained(d, Put(d, p[k], Cleared(d[p[k]], o)), p, 8 + |name|)
  {
    var b := d[p[k]];
    assert b[o + 6] == |name|;
    var c := Put(d, p[k], Cleared(b, o));
    hide Cleared, BlockOk, HasRoom, TiledFrom, RecordOk, InoAt, EntAt, Reaches;
    forall m: nat | m <= 8 + |name| || RoomIn(d, p, m)
      ensures RoomIn(c, p, m)
    {
      if m <= 8 + |name| {
        ClearLeaves(b, o, m);
        assert RoomAt(c, p[k], m);
      } else {
        var i: nat :| i < |p| && RoomAt(d, p[i], m);
        if p[i] == p[k] {
          ClearLeaves(b, o, m);
        }
        assert RoomAt(c, p[i], m);
      }
    }
  }

  /** A directory that had to grow has the rest of the new block. */
  lemma GrownRoom(d: Disk, m: Disk, e: Disk, p: seq<nat>, blk: nat, need: nat)
    requires !RoomIn(d, p, need) && blk < |m| && m[blk] == ZERO_BLOCK && RoomLeft(m, e, p + [blk], p + [blk], need)
    ensures RoomLeft(d, e, p, p + [blk], need)
    ensures forall n: nat :: 8 <= n && need + n <= 4096 ==> RoomIn(e, p + [blk], n)
  {
    hide RoomIn, BlockOk, HasRoom;
    NoneLeft(d, e, p, p + [blk], need);
    forall n: nat | 8 <= n && need + n <= 4096
      ensures RoomIn(e, p + [blk], n)
    {
      BlankIsFound(m, p, blk, need + n);
    }
  }

  lemma NoneLeft(d: Disk, e: Disk, p: seq<nat>, q: seq<nat>, need: nat)
    ensures RoomIn(d, p, need) || RoomLeft(d, e, p, q, need)
  {
    hide RoomIn;
    if !RoomLeft(d, e, p, q, need) {
      var m: nat :| m >= 8 && RoomIn(d, p, need + m) && !RoomIn(e, q, m);
      RoomInForLess(d, p, need + m, need);
    }
  }

  lemma RoomInForLess(d: Disk, p: seq<nat>, n: nat, m: nat)
    requires RoomIn(d, p, n) && m <= n
    ensures RoomIn(d, p, m)
  {
    hide BlockOk, HasRoom;
    var i: nat :| i < |p| && RoomAt(d, p[i], n);
    HasRoomForLess(d[p[i]], n, m);
    assert RoomAt(d, p[i], m);
  }

  lemma AddEffect(d: Disk, geo: Geometry, csum: bool, files: FileMap, ino: nat, k: nat, off: nat, avail: nat, e: DirEnt)
    requires DirState(d, geo, csum, files, ino) && k < |files[ino]| && files[ino][k] < |d|
    requires IsSlot(d[files[ino][k]], off, avail) && off + avail <= 4096
    requires |e.name| < 256 && 0 < e.target.ino < U32_LIMIT && Align4(8 + |e.name|) <= avail
    requires e.name !in ViewOf(d, files, ino)
    ensures var blk := files[ino][k]; var c := Put(d, blk, Filled(d[blk], off, avail, e));
      && DirState(c, geo, csum, files, ino) && OthersKept(d, c, geo, ino, Kept(files, ino))
      && ViewOf(c, files, ino) == ViewOf(d, files, ino)[e.name := e.target] && UsedSet(c, geo) == UsedSet(d, geo)
  {
    var blk := files[ino][k];
    var b := d[blk];
    StateBlock(d, geo, csum, files, ino, k);
    StateNames(d, geo, csum, files, ino);
    hide UsedSet, DirState, Put, Entries, Live, BlockOk, OthersKept, Kept, DistinctNames, AsMap, Filled, IsSlot,
         Align4;
    var x, y := FillInserts(b, off, avail, e);
    var u, w := DirReplaced(d, geo, csum, files, ino, k, Filled(b, off, avail, e));
    Regroup(u, x, e, y, w);
    InsertEntry(u + x, e, y + w);
  }

  lemma StateBlock(d: Disk, geo: Geometry, csum: bool, files: FileMap, ino: nat, k: nat)
    requires DirState(d, geo, csum, files, ino) && k < |files[ino]|
    ensures files[ino][k] < |d| && BlockOk(d[files[ino][k]])
  {
    BlockAt(d, files[ino], k);
  }

  // ---- growth ----

  /** The record of a directory that got one more block. */
  function GrownRaw(raw: Raw): (r: Raw) {
    var size := Size(raw) + 4096;
    W32(W32(W32(raw, 4, size % U32_LIMIT), 108, size / U32_LIMIT % U32_LIMIT), 28, (R32(raw, 28) + 8) % U32_LIMIT)
  }

  lemma GrownReads(raw: Raw)
    requires Size(raw) + 4096 < U32_LIMIT * U32_LIMIT
    ensures var r := GrownRaw(raw);
      && Size(r) == Size(raw) + 4096 && Mode(r) == Mode(raw) && AreaOf(r) == AreaOf(raw)
      && R16(r, 128) == R16(raw, 128) && R16(r, 26) == R16(raw, 26) && R32(r, 28) == (R32(raw, 28) + 8) % U32_LIMIT
  {
    hide R16, R32, W16, W32;
    var size := Size(raw) + 4096;
    var a: Raw := W32(raw, 4, size % U32_LIMIT);
    var b: Raw := W32(a, 108, size / U32_LIMIT % U32_LIMIT);
    W32Keeps(raw, 4, size % U32_LIMIT);
    W32Keeps(a, 108, size / U32_LIMIT % U32_LIMIT);
    W32Keeps(b, 28, (R32(raw, 28) + 8) % U32_LIMIT);
    TwoHalves(size);
    assert AreaOf(GrownRaw(raw)) == AreaOf(raw);
  }

  /** A fresh zeroed block, not yet named by the inode. */
  lemma BlankWritten(d: Disk, geo: Geometry, csum: bool, files: FileMap, ino: nat, blk: nat)
    requires DirState(d, geo, csum, files, ino) && blk < geo.total && !Used(d, blk) && Markable(d, blk)
    ensures var e := Put(Toggled(d, blk, true, csum), blk, ZERO_BLOCK);
      && Mid(d, e, geo, files, ino) && Took(d, e, geo, [blk]) && !IsMeta(blk) && Kept(files, ino) !! {blk}
         && Changed(d, e, {blk})
      && blk < |d| && e[blk] == ZERO_BLOCK && blk !in files[ino]
  {
    StateFacts(d, geo, csum, files, ino);
    FreeIsNew(d, geo, files[ino], blk);
    hide FsOk, Accounting, Mid, Used, Markable, Toggled, Put, UsedSet, Changed, IsMeta, Kept, FileOk, Took, MetaUsed,
         IsDirectory, DirOk, Entries, Writing, DistinctNames;
    MidStart(d, geo, csum, files, ino);
    WriteOne(d, geo, blk, csum, ZERO_BLOCK);
    OneElem(blk);
    MidWritten(d, d, Put(Toggled(d, blk, true, csum), blk, ZERO_BLOCK), geo, files, ino, [blk], ZERO_BLOCK);
  }

  lemma FreeIsNew(d: Disk, geo: Geometry, p: seq<nat>, blk: nat)
    requires OwnBlocks(d, geo, p) && !Used(d, blk)
    ensures blk !in p
  {
    hide Used;
    assert blk !in UsedSet(d, geo);
    assert blk in p ==> blk in Elems(p);
  }

  /** One block allocated and written. */
  lemma WriteOne(d: Disk, geo: Geometry, blk: nat, csum: bool, b: Block)
    requires Accounting(d, geo) && MetaUsed(d, geo) && blk < geo.total <= |d| && !Used(d, blk) && Markable(d, blk)
    requires csum == geo.csum
    ensures var e := Put(Toggled(d, blk, true, csum), blk, b);
      && Writing(d, e, geo, [blk], b) && Took(d, e, geo, [blk]) && Changed(d, e, {blk}) && !IsMeta(blk) && e[blk] == b
  {
    hide Accounting, Used, Markable, Toggled, Put, UsedSet, Changed, IsMeta, Took, MetaUsed, Chunk;
    WritingNothing(d, geo, b);
    OneChunk(b);
    WritingStep(d, d, geo, [], b, blk, csum);
    var e := Put(Toggled(d, blk, true, csum), blk, b);
    assert [] + [blk] == [blk];
    OneElem(blk);
    assert ChunkAt(e, [blk], b, 0);
    assert blk in [blk];
  }

  lemma OneChunk(b: Block)
    ensures Chunk(b, 0) == b
  {
  }

  lemma OneElem(x: nat)
    ensures Elems([x]) == {x}
  {
  }

  /** Writes outside the directory's own blocks and inode leave its map alone. */
  lemma SameDirectory(d: Disk, e: Disk, geo: Geometry, ino: nat, p: seq<nat>, s: set<nat>)
    requires DirOk(d, p) && DataList(geo, p) && geo.total <= |d| && Changed(d, e, s) && s !! Elems(p)
    ensures DirOk(e, p) && Entries(e, p) == Entries(d, p)
  {
    hide BlockOk, IsAcct, IsMeta, Entries;
    forall i: nat | i < |p|
      ensures p[i] < |d| && e[p[i]] == d[p[i]] && DirBlockOk(e, p, i)
    {
      assert DirBlockOk(d, p, i);
      assert p[i] in p && p[i] in Elems(p);
      BeyondBoot(p[i]);
    }
    SameEntries(d, e, p);
  }

  /** The directory with a blank block appended: the same entries. */
  lemma BlankAppended(d: Disk, p: seq<nat>, blk: nat)
    requires DirOk(d, p) && blk < |d| && d[blk] == ZERO_BLOCK
    ensures DirOk(d, p + [blk]) && Entries(d, p + [blk]) == Entries(d, p)
  {
    BlankIs();
    hide Live, BlockOk;
    var q := p + [blk];
    assert q[..|p|] == p;
    forall i: nat | i < |q|
      ensures DirBlockOk(d, q, i)
    {
      if i < |p| {
        assert DirBlockOk(d, p, i);
      }
    }
  }

  lemma BlankIs()
    ensures IsBlank(ZERO_BLOCK) && BlockOk(ZERO_BLOCK) && Live(ZERO_BLOCK) == []
  {
    NotTiled(ZERO_BLOCK);
  }

  /** From disk `d`, the block `blk` was allocated and cleared, and nothing else happened. */
  ghost predicate Blanked(d: Disk, e: Disk, geo: Geometry, files: FileMap, ino: nat, blk: nat) {
    && ino in files && Mid(d, e, geo, files, ino) && Took(d, e, geo, [blk])
       && UsedSet(e, geo) == UsedSet(d, geo) + {blk}
    && !IsMeta(blk) && blk < geo.total && blk < |e| && e[blk] == ZERO_BLOCK
    && OwnList(d, geo, files, ino) && blk !in files[ino] && Kept(files, ino) !! {blk}
    && DirOk(e, files[ino]) && Entries(e, files[ino]) == Entries(d, files[ino])
    && ino >= 1 && InodeBlock(ino) < |d| && |e| == |d| && InodeAt(e, ino) == InodeAt(d, ino)
  }

  /** The file's blocks are its own. */
  ghost predicate OwnList(d: Disk, geo: Geometry, files: FileMap, ino: nat) {
    && ino in files && Distinct(files[ino]) && DataList(geo, files[ino])
    && Elems(files[ino]) <= UsedSet(d, geo) && Kept(files, ino) !! Elems(files[ino])
  }

  lemma IsBlanked(d: Disk, geo: Geometry, csum: bool, files: FileMap, ino: nat, blk: nat)
    requires DirState(d, geo, csum, files, ino) && blk < geo.total && !Used(d, blk) && Markable(d, blk)
    ensures Blanked(d, Put(Toggled(d, blk, true, csum), blk, ZERO_BLOCK), geo, files, ino, blk)
  {
    var e, p := Put(Toggled(d, blk, true, csum), blk, ZERO_BLOCK), files[ino];
    StateFacts(d, geo, csum, files, ino);
    hide FsOk, Accounting, Used, Markable, Toggled, Put, UsedSet, IsMeta, Kept, MetaUsed, Entries, DistinctNames,
         InodeAt, InodeBlock, IsIno, Holds, CsumOk, AreaOf, Mode, Size, Distinct, DataList, OthersKept, Changed, Mid,
         DirOk;
    BlankWritten(d, geo, csum, files, ino, blk);
    MidStart(d, geo, csum, files, ino);
    OneElem(blk);
    ApartFrom(blk, p);
    SameDirectory(d, e, geo, ino, p, {blk});
    InodeStays(d, e, geo, ino, blk);
  }

  lemma ApartFrom(blk: nat, p: seq<nat>)
    requires blk !in p
    ensures {blk} !! Elems(p)
  {
  }

  /** While the inode does not name it, the directory is as before. */
  lemma BlankLost(d: Disk, e: Disk, geo: Geometry, csum: bool, files: FileMap, ino: nat, blk: nat)
    requires DirState(d, geo, csum, files, ino) && Blanked(d, e, geo, files, ino, blk)
    ensures DirState(e, geo, csum, files, ino) && OthersKept(d, e, geo, ino, Kept(files, ino))
    ensures ViewOf(e, files, ino) == ViewOf(d, files, ino)
  {
    var p := files[ino];
    StateFacts(d, geo, csum, files, ino);
    BlankInode(d, e, geo, csum, files, ino, blk);
    hide FsOk, Mid, DirOk, Entries, DistinctNames, InodeAt, InodeBlock, InodeOk, Mode, Size, Distinct, DataList,
         OthersKept, AsMap, OwnList, Took, Elems, Kept, UsedSet, FileOk, Accounting, ValidGeo, MetaUsed, InoUsed,
         IsMeta;
    MidDone(d, e, geo, csum, files, ino, p);
    MidOthers(d, e, geo, files, ino);
    assert files[ino := p] == files;
  }

  lemma BlankInode(d: Disk, e: Disk, geo: Geometry, csum: bool, files: FileMap, ino: nat, blk: nat)
    requires FsOk(d, geo, csum, files) && Blanked(d, e, geo, files, ino, blk)
    ensures InodeOk(e, geo, csum, ino, files[ino])
    ensures Distinct(files[ino]) && DataList(geo, files[ino]) && Elems(files[ino]) <= UsedSet(e, geo)
      && Kept(files, ino) !! Elems(files[ino])
  {
    hide Accounting, MetaUsed, InodeAt, InodeBlock, IsIno, Holds, CsumOk, AreaOf, Mid, Took, DirOk, Entries, DataList,
         Distinct, UsedSet, Kept, OwnBlocks, InoUsed, IsMeta;
    assert FileOk(d, geo, csum, ino, files[ino]);
  }

  /** Once the inode names it, the directory has one more blank block. */
  lemma BlankNamed(d: Disk, e: Disk, geo: Geometry, csum: bool, files: FileMap, ino: nat, blk: nat, raw: Raw)
    requires DirState(d, geo, csum, files, ino) && Blanked(d, e, geo, files, ino, blk)
    requires IsIno(geo, ino) && ino < U32_LIMIT && InodeBlock(ino) < |e| && R16(raw, 128) <= 128
    requires Holds(AreaOf(raw), files[ino] + [blk])
    requires Size(raw) == 4096 * |files[ino] + [blk]| && Mode(raw) == Mode(InodeAt(d, ino))
    ensures var f, after := Saved(e, ino, raw, csum), files[ino := files[ino] + [blk]];
      && DirState(f, geo, csum, after, ino) && OthersKept(d, f, geo, ino, Kept(files, ino))
      && ViewOf(f, after, ino) == ViewOf(d, files, ino) && blk < |f| && f[blk] == ZERO_BLOCK
  {
    hide FsOk, Accounting, UsedSet, IsMeta, Kept, DirOk, Entries, DistinctNames, InodeAt, Elems, Mid, Took, R16,
         IsDirectory, InodeBlock, IsIno, Holds, AreaOf, Mode, Size, OthersKept, AsMap, Saved, OwnList;
    BlankSaved(d, e, geo, csum, files, ino, blk, raw);
    BlankEntries(d, e, Saved(e, ino, raw, csum), geo, csum, files, ino, blk, raw);
  }

  lemma BlankSaved(d: Disk, e: Disk, geo: Geometry, csum: bool, files: FileMap, ino: nat, blk: nat, raw: Raw)
    requires FsOk(d, geo, csum, files) && Blanked(d, e, geo, files, ino, blk)
    requires IsIno(geo, ino) && ino < U32_LIMIT && InodeBlock(ino) < |e| && R16(raw, 128) <= 128
    requires Holds(AreaOf(raw), files[ino] + [blk])
    ensures var f, q := Saved(e, ino, raw, csum), files[ino] + [blk];
      && FsOk(f, geo, csum, files[ino := q]) && OthersKept(d, f, geo, ino, Kept(files, ino))
      && |f| == |e| && InodeAt(f, ino) == Stamped(ino, raw, csum) && Changed(e, f, {InodeBlock(ino)})
         && IsMeta(InodeBlock(ino))
  {
    var f, q := Saved(e, ino, raw, csum), files[ino] + [blk];
    hide FsOk, Accounting, UsedSet, IsMeta, Kept, DirOk, Entries, InodeAt, Elems, Mid, Took, Stamped, R16, InodeOk,
         InodeBlock, IsIno, Holds, AreaOf, Distinct, DataList, OthersKept, Changed, Saved;
    MidFacts(d, e, geo, files, ino);
    NamedBlocks(d, e, geo, files, ino, blk);
    MidSaved(d, e, geo, csum, files, ino, raw, q);
    MidDone(d, f, geo, csum, files, ino, q);
    MidOthers(d, f, geo, files, ino);
  }

  lemma BlankEntries(d: Disk, e: Disk, f: Disk, geo: Geometry, csum: bool, files: FileMap, ino: nat, blk: nat, raw: Raw)
    requires Blanked(d, e, geo, files, ino, blk) && IsDirectory(d, ino, files[ino]) && ino < U32_LIMIT
      && R16(raw, 128) <= 128
    requires InodeBlock(ino) < |e| == |f| && InodeAt(f, ino) == Stamped(ino, raw, csum)
    requires Changed(e, f, {InodeBlock(ino)}) && IsMeta(InodeBlock(ino))
    requires Size(raw) == 4096 * |files[ino] + [blk]| && Mode(raw) == Mode(InodeAt(d, ino))
    ensures var q := files[ino] + [blk];
      && IsDirectory(f, ino, q) && DirOk(f, q) && Entries(f, q) == Entries(d, files[ino]) && f[blk] == ZERO_BLOCK
  {
    var p := files[ino];
    assert geo.total <= |e|;
    hide Accounting, UsedSet, IsMeta, Kept, DirOk, Entries, InodeAt, Elems, Took, Stamped, R16, InodeBlock, Mode,
         Size, Distinct, DataList, OthersKept, Changed, MetaUsed, DataOnly;
    SaveKeepsBlocks(e, f, geo, ino, p, blk);
    StampedIsOk(ino, raw, csum);
    SameArea(raw, Stamped(ino, raw, csum));
    BlankAppended(f, p, blk);
  }

  lemma MidOthers(d0: Disk, d: Disk, geo: Geometry, files: FileMap, ino: nat)
    requires Mid(d0, d, geo, files, ino)
    ensures OthersKept(d0, d, geo, ino, Kept(files, ino))
  {
  }

  lemma SaveKeepsBlocks(e: Disk, f: Disk, geo: Geometry, ino: nat, p: seq<nat>, blk: nat)
    requires ino >= 1 && Changed(e, f, {InodeBlock(ino)}) && IsMeta(InodeBlock(ino)) && geo.total <= |e|
    requires DirOk(e, p) && DataList(geo, p) && blk < |e| && !IsMeta(blk)
    ensures f[blk] == e[blk] && DirOk(f, p) && Entries(f, p) == Entries(e, p)
  {
    hide InodeBlock, Entries, BlockOk;
    BeyondBoot(blk);
    assert InodeBlock(ino) !in p;
    SameDirectory(e, f, geo, ino, p, {InodeBlock(ino)});
  }

  lemma NamedBlocks(d: Disk, e: Disk, geo: Geometry, files: FileMap, ino: nat, blk: nat)
    requires ino in files && Distinct(files[ino]) && DataList(geo, files[ino]) && Elems(files[ino]) <= UsedSet(d, geo)
    requires Kept(files, ino) !! Elems(files[ino]) && Kept(files, ino) !! {blk}
    requires Took(d, e, geo, [blk]) && !IsMeta(blk) && blk < geo.total && blk !in files[ino]
    ensures var q := files[ino] + [blk];
            Distinct(q) && DataList(geo, q) && Elems(q) <= UsedSet(e, geo) && Kept(files, ino) !! Elems(q)
  {
    hide UsedSet, IsMeta, Kept;
    OneElem(blk);
    ElemsSnoc(files[ino], blk);
    DistinctSnoc(files[ino], blk);
    DataListStep(geo, files[ino], blk);
  }

  /** What dir_grow answers: the block it will be given is the lowest free one. */
  function GrowOutcome(free: seq<nat>, p: seq<nat>): Option<FsErr> {
    if free == [] then Some(NoSpace)
    else if |RunsOf(p + [free[0]])| > MAX_ENTRIES then Some(Unsupported)
    else None
  }

  /** The first block of the list, if any. */
  function Head(free: seq<nat>): seq<nat> { if free == [] then [] else [free[0]] }

  lemma LowestIsHead(d: Disk, geo: Geometry, blk: nat)
    requires IsLowest(d, geo, blk)
    ensures FreeList(UsedSet(d, geo), geo.total) != [] && FreeList(UsedSet(d, geo), geo.total)[0] == blk
  {
    hide Used, FreeList;
    NoElems();
    LowestIsNext(d, d, geo, FreeList(UsedSet(d, geo), geo.total), [], blk);
  }

  lemma FullIsEmpty(d: Disk, geo: Geometry)
    requires Full(d, geo)
    ensures FreeList(UsedSet(d, geo), geo.total) == []
  {
    hide Used, FreeList;
    NoElems();
    FullIsOver(d, d, geo, FreeList(UsedSet(d, geo), geo.total), []);
  }

  /** dir_grow: one blank block more and the same map; or no block is free and nothing happened; or
      a fifth extent would be needed, and the block just allocated is lost. */
  method Grow(v: Device, ino: nat, ghost files: FileMap) returns (err: Option<FsErr>, blk: nat)
    requires v.Valid() && DirState(v.d, v.geo, v.csum, files, ino)
    requires Size(InodeAt(v.d, ino)) + 4096 < U32_LIMIT * U32_LIMIT
    modifies v`d, v`log
    ensures v.Valid() && OthersKept(old(v.d), v.d, v.geo, ino, Kept(files, ino)) && ino in files
    ensures Avoids(BlocksOf(old(v.log)), BlocksOf(v.log), Kept(files, ino))
    ensures Spent(BlocksOf(old(v.log)), BlocksOf(v.log), 2)
    ensures err == GrowOutcome(FreeList(UsedSet(old(v.d), v.geo), v.geo.total), files[ino])
    ensures UsedSet(v.d, v.geo) ==
            UsedSet(old(v.d), v.geo) + Elems(Head(FreeList(UsedSet(old(v.d), v.geo), v.geo.total)))
    ensures err.None? ==>
              var after := files[ino := files[ino] + [blk]];
              && DirState(v.d, v.geo, v.csum, after, ino) && ViewOf(v.d, after, ino) == ViewOf(old(v.d), files, ino)
              && blk < |v.d| && v.d[blk] == ZERO_BLOCK && Head(FreeList(UsedSet(old(v.d), v.geo), v.geo.total)) == [blk]
    ensures err.Some? ==>
              && DirState(v.d, v.geo, v.csum, files, ino) && ViewOf(v.d, files, ino) == ViewOf(old(v.d), files, ino)
              && (err == Some(NoSpace) ==> v.d == old(v.d))
    ensures TallyMoves(old(v.d), v.d, ino, 0, if err.None? then 1 else 0)
  {
    hide DirState, TallyMoves, Accounting, Holds, CsumOk, InodeAt, AreaOf, IsIno, InodeBlock, R16, Size, Mode, DirOk,
         Blanked, Used, Markable, Toggled, OthersKept, Kept, Overwrite, Put, BlocksOf, ViewOf, IsLowest, Full, RunsOf,
         UsedSet, GrownRaw, Saved, FreeList, Elems, Avoids, Spent;
    ghost var d, log0 := v.d, BlocksOf(v.log);
    SpentSame(log0, 2);
    blk := 0;
    StateRecord(d, v.geo, v.csum, files, ino);
    OthersSame(d, v.geo, v.csum, files, ino);
    ListFits(d, v.geo, v.csum, files, ino);
    AvoidsSame(log0, Kept(files, ino));
    NoElems();
    DirTally(d, v.geo, v.csum, files, ino);
    var got := Load(v, ino);
    if got.Err? {
      return Some(Io), blk;
    }
    var raw := ArrayOf(got.value);
    var next := v.AllocBlock();
    if next.Err? {
      FullIsEmpty(d, v.geo);
      return Some(NoSpace), blk;
    }
    blk := next.value;
    LowestIs(d, v.geo, blk);
    LowestIsHead(d, v.geo, blk);
    OneElem(blk);
    BitmapIsAcct(GroupOf(blk));
    InoPositive(v.geo, ino);
    SpentGrow(log0, BitmapBlock(GroupOf(blk)), blk, InodeBlock(ino));
    IsBlanked(d, v.geo, v.csum, files, ino, blk);
    BlankedFacts(d, Put(v.d, blk, ZERO_BLOCK), v.geo, files, ino, blk);
    AvoidsGrow(d, v.geo, v.csum, files, ino, blk, log0) by {
      StateSound(d, v.geo, v.csum, files, ino);
    }
    FsNotBoot(d, v.geo, v.csum, files, ino, blk);
    v.WriteBlock(blk, ZERO_BLOCK);
    ghost var e := v.d;
    AreaIs(got.value);
    assert raw[40..100] == raw[..][40..100];
    var ok := ExtentAppend(raw, blk, files[ino]);
    if !ok {
      BlankLost(d, e, v.geo, v.csum, files, ino, blk);
      BlankTally(d, e, v.geo, files, ino, blk);
      return Some(Unsupported), blk;
    }
    RestSame(got.value, raw[..]);
    AreaIs(raw[..]);
    assert raw[40..100] == raw[..][40..100];
    GrownReads(raw[..]);
    BlankNamed(d, e, v.geo, v.csum, files, ino, blk, GrownRaw(raw[..]));
    SavedSet(e, v.geo, ino, GrownRaw(raw[..]), v.csum);
    GrownTally(d, e, v.geo, v.csum, files, ino, blk, GrownRaw(raw[..]));
    Save(v, ino, GrownRaw(raw[..]));
    return None, blk;
  }

  lemma BlankRecord(d: Disk, e: Disk, geo: Geometry, files: FileMap, ino: nat, blk: nat)
    requires Blanked(d, e, geo, files, ino, blk)
    ensures SameInode(d, e, ino)
  {
    hide Mid, Took, UsedSet, IsMeta, OwnList, Kept, DirOk, Entries, InodeAt, InodeBlock;
  }

  lemma BlankTally(d: Disk, e: Disk, geo: Geometry, files: FileMap, ino: nat, blk: nat)
    requires Blanked(d, e, geo, files, ino, blk)
    ensures TallyMoves(d, e, ino, 0, 0)
  {
    hide *;
    BlankRecord(d, e, geo, files, ino, blk);
    TallyStays(d, e, ino);
  }

  lemma GrownTally(d: Disk, e: Disk, geo: Geometry, csum: bool, files: FileMap, ino: nat, blk: nat, raw: Raw)
    requires Blanked(d, e, geo, files, ino, blk) && 1 <= ino < U32_LIMIT && InodeBlock(ino) < |d|
      && R16(raw, 128) <= 128
    requires R16(raw, 26) == R16(InodeAt(d, ino), 26) && R32(raw, 28) == (R32(InodeAt(d, ino), 28) + 8) % U32_LIMIT
    ensures InodeBlock(ino) < |e| && TallyMoves(d, Saved(e, ino, raw, csum), ino, 0, 1)
  {
    hide Blanked, InodeAt, InodeBlock, Saved, R32, R16;
    BlankRecord(d, e, geo, files, ino, blk);
    SavedTally(e, ino, raw, csum);
    LinksFit(raw);
  }

  lemma LinksFit(raw: Raw)
    ensures R16(raw, 26) < 0x1_0000
  {
  }

  lemma InoPositive(geo: Geometry, ino: nat)
    requires IsIno(geo, ino)
    ensures ino >= 1
  {
  }

  lemma BitmapIsAcct(g: nat)
    ensures IsAcct(BitmapBlock(g))
  {
  }

  lemma SavedSet(d: Disk, geo: Geometry, ino: nat, raw: Raw, csum: bool)
    requires Accounting(d, geo) && IsIno(geo, ino) && ino < U32_LIMIT && InodeBlock(ino) < |d| && R16(raw, 128) <= 128
    ensures UsedSet(Saved(d, ino, raw, csum), geo) == UsedSet(d, geo)
  {
    hide *;
    MidSavedUse(d, geo, ino, raw, csum);
  }

  /** What giving an inode a new block writes: accounting, a block that was free, the inode. */
  lemma AvoidsGrow(d: Disk, geo: Geometry, csum: bool, files: FileMap, ino: nat, blk: nat, a: set<nat>)
    requires FsOk(d, geo, csum, files) && IsIno(geo, ino) && blk < geo.total && !Used(d, blk)
    ensures var b := a + {BitmapBlock(GroupOf(blk)), 1, 0} + {blk};
            Avoids(a, b, Kept(files, ino)) && Avoids(a, b + {InodeBlock(ino)}, Kept(files, ino))
  {
    FsParts(d, geo, csum, files);
    KeptFacts(d, geo, csum, files, ino);
    InoIs(geo, ino);
    hide FsOk, Kept, Used, BitmapBlock, GroupOf, InodeBlock, IsMeta, IsAcct, IsIno;
    assert blk !in UsedSet(d, geo);
    OneBlockWritten(blk, geo);
    forall x: nat | x in Kept(files, ino)
      ensures !IsAcct(x)
    {
      BeyondBoot(x);
    }
  }

  lemma StateSound(d: Disk, geo: Geometry, csum: bool, files: FileMap, ino: nat)
    requires DirState(d, geo, csum, files, ino)
    ensures FsOk(d, geo, csum, files)
  {
  }

  lemma FsParts(d: Disk, geo: Geometry, csum: bool, files: FileMap)
    requires FsOk(d, geo, csum, files)
    ensures csum == geo.csum && ValidGeo(geo) && geo.total <= |d| && Accounting(d, geo) && MetaUsed(d, geo)
  {
    hide GroupOk, InodesOk, MetaUsed, FileOk, InoUsed;
  }

  /** Appending to the extents leaves the size and the mode. */
  lemma RestSame(raw: Raw, r: Raw)
    requires r[..40] == raw[..40] && r[100..] == raw[100..]
    ensures Size(r) == Size(raw) && Mode(r) == Mode(raw) && R16(r, 128) == R16(raw, 128) && R32(r, 28) == R32(raw, 28)
      && R16(r, 26) == R16(raw, 26)
  {
    assert forall i :: 0 <= i < 40 ==> r[i] == r[..40][i] == raw[..40][i] == raw[i];
    assert forall i :: 100 <= i < 256 ==> r[i] == r[100..][i - 100] == raw[100..][i - 100] == raw[i];
  }

  lemma AreaIs(raw: Raw)
    ensures AreaOf(raw) == raw[40..100]
  {
  }

  lemma BlankedFacts(d: Disk, e: Disk, geo: Geometry, files: FileMap, ino: nat, blk: nat)
    requires Blanked(d, e, geo, files, ino, blk)
    ensures Accounting(e, geo) && UsedSet(e, geo) == UsedSet(d, geo) + {blk} && |e| == |d|
  {
  }

  /** A directory has fewer blocks than the volume. */
  lemma ListFits(d: Disk, geo: Geometry, csum: bool, files: FileMap, ino: nat)
    requires DirState(d, geo, csum, files, ino)
    ensures ino in files && |files[ino]| <= geo.total < BLOCK_LIMIT && geo.total <= |d|
    ensures Size(InodeAt(d, ino)) + 4096 < U32_LIMIT * U32_LIMIT
  {
    var p := files[ino];
    StateFacts(d, geo, csum, files, ino);
    StateRecord(d, geo, csum, files, ino);
    hide Accounting, FsOk, Used, InodeAt, InodeBlock, IsDirectory;
    DistinctSize(p);
    RangeSize(0, geo.total);
    SubsetSize(Elems(p), Range(0, geo.total));
  }

  lemma DirNotBoot(d: Disk, geo: Geometry, csum: bool, files: FileMap, ino: nat, k: nat)
    requires DirState(d, geo, csum, files, ino) && k < |files[ino]|
    ensures files[ino][k] > 1
  {
    hide IsDirectory, DirOk, Entries, FsOk, DataList;
    StateFacts(d, geo, csum, files, ino);
    ListNotBoot(geo, files[ino], k);
  }

  lemma FsNotBoot(d: Disk, geo: Geometry, csum: bool, files: FileMap, ino: nat, blk: nat)
    requires DirState(d, geo, csum, files, ino) && blk < geo.total && !Used(d, blk)
    ensures blk > 1
  {
    hide IsDirectory, DirOk, Entries, FsOk, Used, MetaUsed;
    StateFacts(d, geo, csum, files, ino);
    NotBoot(d, geo, blk);
  }

  /** The entry is written into the slot. */
  method FillSlot(v: Device, ino: nat, e: DirEnt, blk: nat, off: nat, avail: nat, ghost k: nat, ghost files: FileMap)
    requires v.Valid() && DirState(v.d, v.geo, v.csum, files, ino) && k < |files[ino]| && blk == files[ino][k] < |v.d|
    requires IsSlot(v.d[blk], off, avail) && off + avail <= 4096
    requires |e.name| < 256 && 0 < e.target.ino < U32_LIMIT && Align4(8 + |e.name|) <= avail
      && e.name !in ViewOf(v.d, files, ino)
    modifies v`d, v`log
    ensures v.Valid() && DirState(v.d, v.geo, v.csum, files, ino)
      && OthersKept(old(v.d), v.d, v.geo, ino, Kept(files, ino))
    ensures ViewOf(v.d, files, ino) == ViewOf(old(v.d), files, ino)[e.name := e.target]
    ensures UsedSet(v.d, v.geo) == UsedSet(old(v.d), v.geo)
      && Avoids(BlocksOf(old(v.log)), BlocksOf(v.log), Kept(files, ino))
    ensures Spent(BlocksOf(old(v.log)), BlocksOf(v.log), 1) && TallyMoves(old(v.d), v.d, ino, 0, 0)
    ensures RoomLeft(old(v.d), v.d, files[ino], files[ino], Align4(8 + |e.name|))
  {
    hide UsedSet, Avoids, DirState, OthersKept, Kept, Overwrite, Put, BlocksOf, ViewOf, IsSlot, Filled, Spent,
         TallyMoves, RoomLeft, Align4;
    StateRecord(v.d, v.geo, v.csum, files, ino);
    SlotRoom(v.d, files[ino], k, off, avail, e) by {
      StateBlock(v.d, v.geo, v.csum, files, ino, k);
    }
    FilledTally(v.d, v.geo, v.csum, files, ino, k, Filled(v.d[blk], off, avail, e));
    SpentOne(BlocksOf(v.log), blk);
    AddEffect(v.d, v.geo, v.csum, files, ino, k, off, avail, e);
    AvoidsOwn(v.d, v.geo, v.csum, files, ino, k, BlocksOf(v.log));
    var b := v.ReadBlock(blk);
    DirNotBoot(v.d, v.geo, v.csum, files, ino, k);
    v.WriteBlock(blk, Filled(b, off, avail, e));
  }

  /** Writing one of its blocks leaves the inode of a directory. */
  lemma FilledTally(d: Disk, geo: Geometry, csum: bool, files: FileMap, ino: nat, k: nat, b: Block)
    requires DirState(d, geo, csum, files, ino) && k < |files[ino]| && files[ino][k] < |d|
    ensures TallyMoves(d, Put(d, files[ino][k], b), ino, 0, 0)
  {
    StateFacts(d, geo, csum, files, ino);
    StateRecord(d, geo, csum, files, ino);
    assert files[ino][k] in files[ino];
    assert !IsMeta(files[ino][k]);
    hide *;
    SameDataRefl(d);
    PutChanged(d, d, files[ino][k], b);
    InodeStays(d, Put(d, files[ino][k], b), geo, ino, files[ino][k]);
    TallyStays(d, Put(d, files[ino][k], b), ino);
  }

  /** dir_find_slot on a directory, from the inode on. */
  method FindFreeSlot(v: Device, ino: nat, need: nat, ghost files: FileMap)
    returns (r: Result<bool, FsErr>, ghost k: nat, blk: nat, off: nat, avail: nat)
    requires DirState(v.d, v.geo, v.csum, files, ino) && need <= 4096
    ensures r.Ok? && ino in files
    ensures r.value ==>
              && k < |files[ino]| && blk == files[ino][k] < |v.d| && IsSlot(v.d[blk], off, avail)
              && need <= avail && off + avail <= 4096
    ensures r.value <==> RoomIn(v.d, files[ino], need)
  {
    hide DirState, Accounting, Holds, CsumOk, InodeAt, AreaOf, IsIno, InodeBlock, R16, Size, DirOk, RoomIn, IsSlot;
    k, blk, off, avail := 0, 0, 0, 0;
    StateRecord(v.d, v.geo, v.csum, files, ino);
    var got := Load(v, ino);
    if got.Err? {
      r := Err(Io);
      return;
    }
    r, k, blk, off, avail := FindSlot(v, AreaOf(got.value), Size(got.value), need, files[ino]);
  }

  lemma BlankIsFound(d: Disk, p: seq<nat>, blk: nat, need: nat)
    requires blk < |d| && d[blk] == ZERO_BLOCK && need <= 4096
    ensures RoomIn(d, p + [blk], need)
  {
    BlankIs();
    NotTiled(ZERO_BLOCK);
    assert (p + [blk])[|p|] == blk;
    assert RoomAt(d, blk, need);
  }

  /** The bytes a record of this name takes. */
  function NeedFor(name: seq<Byte>): nat { Align4(8 + |name|) }

  /** What dir_add answers: there is room in one of the blocks, or the directory can grow. */
  ghost function AddOutcome(d: Disk, geo: Geometry, p: seq<nat>, need: nat): Option<FsErr> {
    if RoomIn(d, p, need) then None else GrowOutcome(FreeList(UsedSet(d, geo), geo.total), p)
  }

  /** The block it takes for that, if it takes one. */
  ghost function AddTakes(d: Disk, geo: Geometry, p: seq<nat>, need: nat): seq<nat> {
    if RoomIn(d, p, need) then [] else Head(FreeList(UsedSet(d, geo), geo.total))
  }

  /** dir_add of a name the directory does not have: the map gains exactly that name, in a slot that
      was free or in a new block; on failure the map is unchanged. */
  method DirAdd(v: Device, ino: nat, name: seq<Byte>, child: nat, ftype: Byte, ghost files: FileMap)
    returns (err: Option<FsErr>, ghost after: FileMap)
    requires v.Valid() && DirState(v.d, v.geo, v.csum, files, ino)
    requires |name| < 256 && 0 < child < U32_LIMIT && name !in ViewOf(v.d, files, ino)
    modifies v`d, v`log
    ensures v.Valid() && DirState(v.d, v.geo, v.csum, after, ino)
      && OthersKept(old(v.d), v.d, v.geo, ino, Kept(files, ino))
    ensures ino in files && err == AddOutcome(old(v.d), v.geo, files[ino], NeedFor(name))
    ensures UsedSet(v.d, v.geo) == UsedSet(old(v.d), v.geo) + Elems(AddTakes(old(v.d), v.geo, files[ino],
        NeedFor(name)))
    ensures Avoids(BlocksOf(old(v.log)), BlocksOf(v.log), Kept(files, ino))
      && Spent(BlocksOf(old(v.log)), BlocksOf(v.log), 3)
    ensures after == files || (ino in files && exists blk: nat :: after == files[ino := files[ino] + [blk]])
    ensures ViewOf(v.d, after, ino) ==
            if err.None? then ViewOf(old(v.d), files, ino)[name := Target(child, ftype)] else ViewOf(old(v.d), files,
                ino)
    ensures err.Some? ==> after == files && (err == Some(NoSpace) || err == Some(Unsupported))
    ensures err == Some(NoSpace) ==> v.d == old(v.d)
    ensures ino in after && |after[ino]| >= |files[ino]|
      && TallyMoves(old(v.d), v.d, ino, 0, |after[ino]| - |files[ino]|)
    ensures err.None? ==> RoomLeft(old(v.d), v.d, files[ino], after[ino], NeedFor(name))
    ensures err.None? && |after[ino]| > |files[ino]| ==>
              forall n: nat :: 8 <= n && NeedFor(name) + n <= 4096 ==> RoomIn(v.d, after[ino], n)
    ensures err.None? ==> after[ino] == files[ino] + AddTakes(old(v.d), v.geo, files[ino], NeedFor(name))
  {
    hide DirState, RoomIn, IsSlot, OthersKept, Kept, Overwrite, BlocksOf, ViewOf, Used, UsedSet, InodeAt, Size,
         Avoids, FreeList, RunsOf, Elems, Head, Spent, TallyMoves, RoomLeft, Align4;
    ghost var d, log0 := v.d, BlocksOf(v.log);
    SpentSame(log0, 2);
    after := files;
    var e := DirEnt(name, Target(child, ftype));
    var need := Align4(8 + |name|);
    OthersSame(d, v.geo, v.csum, files, ino);
    AvoidsSame(log0, Kept(files, ino));
    NoElems();
    DirTally(d, v.geo, v.csum, files, ino);
    var r, k, blk, off, avail := FindFreeSlot(v, ino, need, files);
    if r == Ok(false) {
      ListFits(d, v.geo, v.csum, files, ino);
      var grown, added := Grow(v, ino, files);
      if grown.Some? {
        SpentMore(log0, BlocksOf(v.log), 2, 3);
        return grown, files;
      }
      after := files[ino := files[ino] + [added]];
      BlankIsFound(v.d, files[ino], added, need);
      r, k, blk, off, avail := FindFreeSlot(v, ino, need, after);
    }
    assert files[ino] + [] == files[ino];
    SameKept(files, after, ino);
    ghost var m, log1 := v.d, BlocksOf(v.log);
    FillSlot(v, ino, e, blk, off, avail, k, after);
    if after != files {
      GrownRoom(d, m, v.d, files[ino], after[ino][|files[ino]|], need);
    }
    TallyTrans(d, m, v.d, ino, 0, |after[ino]| - |files[ino]|, 0, 0);
    OthersTrans(d, m, v.d, v.geo, ino, Kept(files, ino));
    AvoidsTrans(log0, log1, BlocksOf(v.log), Kept(files, ino));
    SpentTrans(log0, log1, BlocksOf(v.log), 2, 1);
    return None, after;
  }

  lemma DirTally(d: Disk, geo: Geometry, csum: bool, files: FileMap, ino: nat)
    requires DirState(d, geo, csum, files, ino)
    ensures ino in files && TallyMoves(d, d, ino, 0, 0)
  {
    StateRecord(d, geo, csum, files, ino);
    hide InodeAt, InodeBlock, DirState, Accounting;
    TallyStays(d, d, ino);
  }

  /** Growing a directory changes nothing about the other files. */
  lemma SameKept(files: FileMap, after: FileMap, ino: nat)
    requires after == files || (ino in files && exists blk: nat :: after == files[ino := files[ino] + [blk]])
    ensures Kept(after, ino) == Kept(files, ino)
  {
    forall x | x in Kept(files, ino)
      ensures x in Kept(after, ino)
    {
      var j :| j in files && j != ino && x in files[j];
      assert j in after && x in after[j];
    }
    forall x | x in Kept(after, ino)
      ensures x in Kept(files, ino)
    {
      var j :| j in after && j != ino && x in after[j];
      assert j in files && x in files[j];
    }
  }
}
