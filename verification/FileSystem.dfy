/** Whole files: what it means for the volume to hold a set of files, and that reading, writing and
    rewriting a file do what they should to that file and nothing to any other. */
module FileSystem {
  import opened Bytes
  import opened Collections
  import opened Wrappers
  import opened Disk
  import opened Bitmap
  import opened Extents
  import opened Volume
  import opened Inodes
  import opened Files

  /** The blocks of every inode in use, in file order. */
  type FileMap = map<nat, seq<nat>>

  // ---- the file system invariant ----

  ghost predicate InodeOk(d: Disk, geo: Geometry, csum: bool, ino: nat, p: seq<nat>) {
    && IsIno(geo, ino) && ino < U32_LIMIT && InodeBlock(ino) < |d|
    && CsumOk(ino, InodeAt(d, ino), csum) && Holds(AreaOf(InodeAt(d, ino)), p)
  }

  /** Distinct used blocks of the volume, none of them metadata. */
  ghost predicate OwnBlocks(d: Disk, geo: Geometry, p: seq<nat>) {
    Distinct(p) && Elems(p) <= UsedSet(d, geo) && forall x :: x in p ==> !IsMeta(x)
  }

  ghost predicate MetaUsed(d: Disk, geo: Geometry) {
    forall x: nat :: x < geo.total && IsMeta(x) ==> Used(d, x)
  }

  ghost predicate FileOk(d: Disk, geo: Geometry, csum: bool, ino: nat, p: seq<nat>) {
    InodeOk(d, geo, csum, ino, p) && OwnBlocks(d, geo, p)
  }

  ghost predicate FsOk(d: Disk, geo: Geometry, csum: bool, files: FileMap) {
    && csum == geo.csum && Accounting(d, geo) && MetaUsed(d, geo)
    && (forall ino :: ino in files ==> FileOk(d, geo, csum, ino, files[ino]))
    && (forall ino :: ino in files ==> InoUsed(d, ino))
    && (forall i, j :: i in files && j in files && i != j ==> Elems(files[i]) !! Elems(files[j]))
  }

  ghost predicate InoUsed(d: Disk, ino: nat) { ino >= 1 && Marked(d, ino) }

  /** The inode bitmaps are the same. */
  ghost predicate SameMaps(d: Disk, e: Disk, geo: Geometry) {
    |e| == |d| && forall g: nat :: g < geo.groups ==> SameBlock(d, e, InodeMapBlock(g))
  }

  lemma StaysInUse(d: Disk, e: Disk, geo: Geometry, ino: nat)
    requires SameMaps(d, e, geo) && IsIno(geo, ino) && InoUsed(d, ino)
    ensures InoUsed(e, ino)
  {
    hide Bit, InodeMapBlock;
    assert SameBlock(d, e, InodeMapBlock(InodeGroup(ino)));
  }

  lemma MapsKept(d: Disk, e: Disk, geo: Geometry, s: set<nat>)
    requires ValidGeo(geo) && geo.total <= |d| && Changed(d, e, s)
    requires forall x :: x in s ==> BitOf(x) >= 4
    ensures SameMaps(d, e, geo)
  {
    hide IsAcct;
    forall g: nat | g < geo.groups
      ensures SameBlock(d, e, InodeMapBlock(g))
    {
      InodeMapIs(geo, g);
    }
  }

  lemma InodeMapIs(geo: Geometry, g: nat)
    requires ValidGeo(geo) && g < geo.groups
    ensures InodeMapBlock(g) < geo.total && BitOf(InodeMapBlock(g)) == 3 && !IsAcct(InodeMapBlock(g))
  {
    FullGroups(geo, g);
    PartsBlock(g, 3);
  }

  /** The blocks of all files but one. */
  function Kept(files: FileMap, ino: nat): set<nat> {
    set j, x | j in files && j != ino && x in files[j] :: x
  }

  /** Every other inode and every block in `keep` is as it was. */
  ghost predicate OthersKept(d: Disk, e: Disk, geo: Geometry, ino: nat, keep: set<nat>) {
    && |e| == |d| && geo.total <= |d| && ValidGeo(geo) && SameMaps(d, e, geo)
    && (forall j: nat :: IsIno(geo, j) && j != ino ==> SameInode(d, e, j))
    && (forall x: nat :: x in keep ==> SameBlock(d, e, x))
  }

  ghost predicate SameInode(d: Disk, e: Disk, j: nat) {
    j >= 1 && InodeBlock(j) < |d| && |e| == |d| && InodeAt(e, j) == InodeAt(d, j)
  }

  ghost predicate SameBlock(d: Disk, e: Disk, x: nat) {
    x < |d| && |e| == |d| && e[x] == d[x]
  }

  /** Blocks of files: on the volume and not metadata. */
  ghost predicate DataOnly(geo: Geometry, keep: set<nat>) {
    forall x: nat :: x in keep ==> x < geo.total && !IsMeta(x)
  }

  lemma OthersRefl(d: Disk, geo: Geometry, ino: nat, keep: set<nat>)
    requires ValidGeo(geo) && geo.total <= |d| && DataOnly(geo, keep)
    ensures OthersKept(d, d, geo, ino, keep)
  {
    MapsSame(d, geo);
    hide InodeAt, InodeBlock, IsIno, SameMaps;
    forall j: nat | IsIno(geo, j) && j != ino
      ensures SameInode(d, d, j)
    {
      InoIs(geo, j);
    }
  }

  lemma MapsSame(d: Disk, geo: Geometry)
    requires ValidGeo(geo) && geo.total <= |d|
    ensures SameMaps(d, d, geo)
  {
    forall g: nat | g < geo.groups
      ensures SameBlock(d, d, InodeMapBlock(g))
    {
      InodeMapIs(geo, g);
    }
  }

  lemma MapsTrans(d: Disk, e: Disk, f: Disk, geo: Geometry)
    requires SameMaps(d, e, geo) && SameMaps(e, f, geo)
    ensures SameMaps(d, f, geo)
  {
    hide InodeMapBlock;
    forall g: nat | g < geo.groups
      ensures SameBlock(d, f, InodeMapBlock(g))
    {
      assert SameBlock(d, e, InodeMapBlock(g)) && SameBlock(e, f, InodeMapBlock(g));
    }
  }

  lemma InoIs(geo: Geometry, j: nat)
    requires ValidGeo(geo) && IsIno(geo, j)
    ensures 1 <= j < U32_LIMIT && 1 < InodeBlock(j) < geo.total && !IsAcct(InodeBlock(j)) && IsMeta(InodeBlock(j))
      && BitOf(InodeBlock(j)) >= 4
  {
    InodeBlockIs(geo, j);
  }

  lemma OthersTrans(d: Disk, e: Disk, f: Disk, geo: Geometry, ino: nat, keep: set<nat>)
    requires OthersKept(d, e, geo, ino, keep) && OthersKept(e, f, geo, ino, keep)
    ensures OthersKept(d, f, geo, ino, keep)
  {
    MapsTrans(d, e, f, geo);
    hide InodeAt, InodeBlock, IsIno, SameMaps;
    forall j: nat | IsIno(geo, j) && j != ino
      ensures SameInode(d, f, j)
    {
      assert SameInode(d, e, j) && SameInode(e, f, j);
    }
    forall x: nat | x in keep
      ensures SameBlock(d, f, x)
    {
      assert SameBlock(d, e, x) && SameBlock(e, f, x);
    }
  }

  /** Accounting writes, and writes to blocks outside `keep` that are not metadata. */
  lemma OthersWrites(d: Disk, e: Disk, geo: Geometry, ino: nat, keep: set<nat>, s: set<nat>)
    requires ValidGeo(geo) && geo.total <= |d| && DataOnly(geo, keep) && DataOnly(geo, s) && keep !! s
    requires Changed(d, e, s)
    ensures OthersKept(d, e, geo, ino, keep)
  {
    assert forall x :: x in s ==> BitOf(x) >= 4;
    MapsKept(d, e, geo, s);
    hide InodeBlock, IsIno, SameMaps;
    forall j: nat | IsIno(geo, j) && j != ino
      ensures SameInode(d, e, j)
    {
      InoIs(geo, j);
    }
    forall x: nat | x in keep
      ensures SameBlock(d, e, x)
    {
    }
  }

  /** Only accounting blocks and the blocks of `s` may differ. */
  ghost predicate Changed(d: Disk, e: Disk, s: set<nat>) {
    |e| == |d| && forall x: nat :: x < |d| && !IsAcct(x) && x !in s ==> e[x] == d[x]
  }

  lemma OthersSaved(d: Disk, geo: Geometry, ino: nat, raw: Raw, csum: bool, keep: set<nat>)
    requires ValidGeo(geo) && geo.total <= |d| && DataOnly(geo, keep) && IsIno(geo, ino) && ino < U32_LIMIT
      && InodeBlock(ino) < |d|
    requires R16(raw, 128) <= 128
    ensures OthersKept(d, Saved(d, ino, raw, csum), geo, ino, keep)
  {
    hide InodeBlock, IsIno, InodeAt, Stamped, Put, R16;
    InoIs(geo, ino);
    var e := Saved(d, ino, raw, csum);
    SavedChanged(d, ino, raw, csum);
    MapsKept(d, e, geo, {InodeBlock(ino)});
    hide SameMaps;
    forall j: nat | IsIno(geo, j) && j != ino
      ensures SameInode(d, e, j)
    {
      InoIs(geo, j);
      SavedReads(d, ino, raw, csum, j);
    }
    forall x: nat | x in keep
      ensures SameBlock(d, e, x)
    {
      PutAt(d, InodeBlock(ino), Splice(d[InodeBlock(ino)], InodeOff(ino), Stamped(ino, raw, csum)), x);
    }
  }

  lemma SavedChanged(d: Disk, ino: nat, raw: Raw, csum: bool)
    requires 1 <= ino < U32_LIMIT && InodeBlock(ino) < |d| && R16(raw, 128) <= 128
    ensures Changed(d, Saved(d, ino, raw, csum), {InodeBlock(ino)})
  {
    hide InodeBlock, Stamped, Put, R16;
    forall x: nat | x < |d| && x != InodeBlock(ino)
      ensures Saved(d, ino, raw, csum)[x] == d[x]
    {
      PutAt(d, InodeBlock(ino), Splice(d[InodeBlock(ino)], InodeOff(ino), Stamped(ino, raw, csum)), x);
    }
  }

  /** The blocks of the other files are used, are not metadata and are not this file's. */
  lemma KeptFacts(d: Disk, geo: Geometry, csum: bool, files: FileMap, ino: nat)
    requires FsOk(d, geo, csum, files)
    ensures DataOnly(geo, Kept(files, ino)) && Kept(files, ino) <= UsedSet(d, geo)
    ensures ino in files ==> Kept(files, ino) !! Elems(files[ino])
  {
    hide InodeOk, Accounting, Used, IsMeta, Holds;
    forall x: nat | x in Kept(files, ino)
      ensures x < geo.total && !IsMeta(x) && x in UsedSet(d, geo) && (ino in files ==> x !in files[ino])
    {
      var j :| j in files && j != ino && x in files[j];
      assert FileOk(d, geo, csum, j, files[j]);
      assert x in Elems(files[j]);
      if ino in files {
        assert Elems(files[j]) !! Elems(files[ino]);
      }
    }
  }

  /** The invariant after one file got the blocks `q` instead of its old ones. */
  lemma FsReplaced(d: Disk, e: Disk, geo: Geometry, csum: bool, files: FileMap, ino: nat, q: seq<nat>)
    requires FsOk(d, geo, csum, files) && Accounting(e, geo) && MetaUsed(e, geo)
    requires FileOk(e, geo, csum, ino, q) && OthersKept(d, e, geo, ino, Kept(files, ino))
    requires Kept(files, ino) <= UsedSet(e, geo) && Kept(files, ino) !! Elems(q)
    requires InoUsed(d, ino)
    ensures FsOk(e, geo, csum, files[ino := q])
  {
    hide SameMaps, Marked, InodeBlock, IsIno, Accounting, Used, MetaUsed, UsedSet, Distinct, Holds, CsumOk, InodeAt,
         AreaOf;
    var after := files[ino := q];
    forall j | j in after
      ensures FileOk(e, geo, csum, j, after[j]) && InoUsed(e, j)
    {
      StaysInUse(d, e, geo, j);
      if j != ino {
        assert FileOk(d, geo, csum, j, files[j]);
        assert SameInode(d, e, j);
        assert Elems(files[j]) <= Kept(files, ino);
      }
    }
    forall i, j | i in after && j in after && i != j
      ensures Elems(after[i]) !! Elems(after[j])
    {
      if i == ino {
        assert Elems(files[j]) <= Kept(files, ino);
      } else if j == ino {
        assert Elems(files[i]) <= Kept(files, ino);
      } else {
        assert Elems(files[i]) !! Elems(files[j]);
      }
    }
  }

  // ---- contents ----

  /** Byte `k` of the file is byte `k % 4096` of its block `k / 4096`. */
  ghost predicate DataAt(d: Disk, p: seq<nat>, data: seq<Byte>) {
    |data| <= 4096 * |p| && forall k: nat :: k < |data| ==> ByteAt(d, p, k, data[k])
  }

  predicate ByteAt(d: Disk, p: seq<nat>, k: nat, b: Byte) {
    k / 4096 < |p| && p[k / 4096] < |d| && d[p[k / 4096]][k % 4096] == b
  }

  /** The file of this inode has these contents. */
  ghost predicate FileHolds(d: Disk, ino: nat, p: seq<nat>, data: seq<Byte>) {
    && ino >= 1 && InodeBlock(ino) < |d|
    && IsRegular(InodeAt(d, ino)) && Size(InodeAt(d, ino)) == |data| && DataAt(d, p, data)
  }

  /** A file whose inode and blocks are untouched keeps its contents. */
  lemma SameContents(d: Disk, e: Disk, geo: Geometry, files: FileMap, ino: nat, j: nat, data: seq<Byte>)
    requires OthersKept(d, e, geo, ino, Kept(files, ino)) && j in files && j != ino && IsIno(geo, j)
    requires FileHolds(d, j, files[j], data)
    ensures FileHolds(e, j, files[j], data)
  {
    hide InodeAt, InodeBlock, IsIno, Size, IsRegular;
    assert SameInode(d, e, j);
    var p := files[j];
    forall k: nat | k < |data|
      ensures ByteAt(e, p, k, data[k])
    {
      assert ByteAt(d, p, k, data[k]);
      assert p[k / 4096] in files[j];
      assert p[k / 4096] in Kept(files, ino);
      assert SameBlock(d, e, p[k / 4096]);
    }
  }

  /** read_file_data: as much of the contents as fits the buffer. */
  method ReadFileData(v: Device, ino: nat, out: array<Byte>, ghost p: seq<nat>, ghost data: seq<Byte>)
    returns (r: Result<nat, FsErr>)
    requires Accounting(v.d, v.geo) && InodeOk(v.d, v.geo, v.csum, ino, p)
    requires IsRegular(InodeAt(v.d, ino)) ==> FileHolds(v.d, ino, p, data)
    modifies out
    ensures !IsRegular(InodeAt(v.d, ino)) ==> r == Err(IsDir) && out[..] == old(out[..])
    ensures IsRegular(InodeAt(v.d, ino)) ==>
              var n := Least(|data|, out.Length);
              r == Ok(n) && out[..n] == data[..n] && out[n..] == old(out[n..])
  {
    hide Accounting, Holds, CsumOk, InodeAt, IsRegular, Size, AreaOf, IsIno, InodeBlock, R16;
    RecordFits(v.d, v.geo, v.csum, ino, p);
    var got := Load(v, ino);
    if got.Err? {
      return Err(Io);
    }
    var raw := got.value;
    if !IsRegular(raw) {
      return Err(IsDir);
    }
    var want := Least(Size(raw), out.Length);
    if want == 0 {
      return Ok(0);
    }
    var ib := AreaOf(raw);
    var written := 0;
    while written < want
      invariant written <= want && (written < want ==> written % 4096 == 0)
      invariant forall k: nat :: k < written ==> out[k] == data[k]
      invariant forall k: nat :: written <= k < out.Length ==> out[k] == old(out[k])
    {
      var logical := written / 4096;
      var n := Least(want - written, 4096);
      var phys := ExtentMap(ib, logical, p);
      if phys.None? {
        return Err(Io);
      }
      assert ByteAt(v.d, p, written, data[written]);
      var b := v.ReadBlock(phys.value);
      CopyOut(out, written, b, n, v.d, p, data);
      written := written + n;
    }
    return Ok(written);
  }

  /** `out[written..written + n].copy_from_slice(&b[..n])` */
  method CopyOut(out: array<Byte>, written: nat, b: Block, n: nat, ghost d: Disk, ghost p: seq<nat>,
                 ghost data: seq<Byte>)
    requires written % 4096 == 0 && n <= 4096 && written + n <= out.Length && written + n <= |data|
    requires DataAt(d, p, data) && written / 4096 < |p| && p[written / 4096] < |d| && b == d[p[written / 4096]]
    modifies out
    ensures forall k: nat :: written <= k < written + n ==> out[k] == data[k]
    ensures forall k: nat :: k < out.Length && !(written <= k < written + n) ==> out[k] == old(out[k])
  {
    for i := 0 to n
      invariant forall k: nat :: written <= k < written + i ==> out[k] == data[k]
      invariant forall k: nat :: k < out.Length && !(written <= k < written + i) ==> out[k] == old(out[k])
    {
      var k: nat := written + i;
      assert ByteAt(d, p, k, data[k]);
      assert k / 4096 == written / 4096 && k % 4096 == i;
      out[k] := b[i];
    }
  }

  lemma RecordFits(d: Disk, geo: Geometry, csum: bool, ino: nat, p: seq<nat>)
    requires InodeOk(d, geo, csum, ino, p)
    ensures R16(InodeAt(d, ino), 128) <= 128
  {
    hide R16, InodeCsum, InodeAt;
  }
}
