/** File contents on top of inodes, extents and block allocation: reading, freeing and rewriting a
    file, seen as the set of used blocks and the block sequence each inode owns. */
module Files {
  import opened Bytes
  import opened Collections
  import opened Wrappers
  import opened Disk
  import opened Extents
  import opened Volume
  import opened Inodes

  // ---- who owns which blocks ----

  function UsedSet(d: Disk, geo: Geometry): (s: set<nat>) {
    set x: nat | x < geo.total && Used(d, x)
  }

  /** The blocks the accounting itself writes. */
  predicate IsAcct(x: nat) { x <= 1 || BitOf(x) == 2 }

  /** Only accounting blocks may differ. */
  ghost predicate SameData(d: Disk, e: Disk) {
    |e| == |d| && forall x: nat :: x < |d| && !IsAcct(x) ==> e[x] == d[x]
  }

  lemma ToggledSet(d: Disk, geo: Geometry, blk: nat, on: bool, csum: bool)
    requires Markable(d, blk) && blk < geo.total
    ensures UsedSet(Toggled(d, blk, on, csum), geo) == if on then UsedSet(d, geo) + {blk} else UsedSet(d, geo) - {blk}
  {
    hide Used, Toggled, Markable;
    forall x: nat | x < geo.total
      ensures Used(Toggled(d, blk, on, csum), x) <==> if x == blk then on else Used(d, x)
    {
      ToggledUsed(d, blk, on, csum, x);
    }
  }

  lemma ToggledData(d: Disk, geo: Geometry, blk: nat, on: bool, csum: bool)
    requires Markable(d, blk)
    ensures SameData(d, Toggled(d, blk, on, csum))
  {
    hide Toggled, Markable;
    forall x: nat | x < |d| && !IsAcct(x)
      ensures Toggled(d, blk, on, csum)[x] == d[x]
    {
      PartsBlock(GroupOf(blk), 2);
      ToggleFrame(d, blk, on, csum, x);
    }
  }

  lemma SameDataTrans(d: Disk, e: Disk, f: Disk)
    requires SameData(d, e) && SameData(e, f)
    ensures SameData(d, f)
  {
    hide IsAcct;
  }

  // ---- freeing ----

  /** The first `n` blocks of `p` have been freed. */
  ghost predicate Freed(d0: Disk, d: Disk, geo: Geometry, p: seq<nat>, n: nat) {
    n <= |p| && Accounting(d, geo) && SameData(d0, d) && UsedSet(d, geo) == UsedSet(d0, geo) - Elems(p[..n])
  }

  ghost predicate OnlyAcct(before: set<nat>, now: set<nat>) {
    forall b :: b in now ==> b in before || IsAcct(b)
  }

  lemma FreedStep(d0: Disk, d: Disk, geo: Geometry, p: seq<nat>, n: nat, csum: bool)
    requires Freed(d0, d, geo, p, n) && n < |p| && p[n] < geo.total && Markable(d, p[n])
    requires Accounting(Toggled(d, p[n], false, csum), geo)
    ensures Freed(d0, Toggled(d, p[n], false, csum), geo, p, n + 1)
  {
    hide Accounting, Toggled, Markable, UsedSet, SameData, Elems;
    ToggledSet(d, geo, p[n], false, csum);
    ToggledData(d, geo, p[n], false, csum);
    SameDataTrans(d0, d, Toggled(d, p[n], false, csum));
    ElemsTake(p, n);
  }

  lemma NextIsUsed(d0: Disk, d: Disk, geo: Geometry, p: seq<nat>, n: nat)
    requires Freed(d0, d, geo, p, n) && n < |p| && Distinct(p) && Elems(p) <= UsedSet(d0, geo)
    ensures p[n] < geo.total && Used(d, p[n])
  {
    hide Used, Accounting, SameData;
    NotYet(p, n);
    assert p[n] in Elems(p);
    assert p[n] in UsedSet(d, geo);
  }

  method FreeNth(v: Device, blk: nat, ghost d0: Disk, ghost p: seq<nat>, ghost n: nat)
    requires v.Valid() && Freed(d0, v.d, v.geo, p, n) && n < |p| && blk == p[n] && Distinct(p)
      && Elems(p) <= UsedSet(d0, v.geo)
    modifies v`d, v`log
    ensures v.Valid() && Freed(d0, v.d, v.geo, p, n + 1) && OnlyAcct(BlocksOf(old(v.log)), BlocksOf(v.log))
  {
    hide Accounting, Toggled, Markable, UsedSet, Elems, Overwrite, BlocksOf, SameData, GroupOf, BitOf, Used;
    NextIsUsed(d0, v.d, v.geo, p, n);
    ghost var d := v.d;
    assert Accounting(d, v.geo);
    hide Freed;
    PartsBlock(GroupOf(blk), 2);
    v.FreeBlock(blk);
    FreedStep(d0, d, v.geo, p, n, v.csum);
  }

  lemma FreedNone(d: Disk, geo: Geometry, p: seq<nat>)
    requires Accounting(d, geo)
    ensures Freed(d, d, geo, p, 0)
  {
  }

  lemma OnlyAcctTrans(a: set<nat>, b: set<nat>, c: set<nat>)
    requires OnlyAcct(a, b) && OnlyAcct(b, c)
    ensures OnlyAcct(a, c)
  {
    hide IsAcct;
  }

  lemma OnlyAcctRefl(a: set<nat>)
    ensures OnlyAcct(a, a)
  {
  }

  method FreeRun(v: Device, start: nat, len: nat, ghost d0: Disk, ghost p: seq<nat>, ghost n: nat,
                 ghost before: set<nat>)
    requires v.Valid() && Freed(d0, v.d, v.geo, p, n) && Distinct(p) && Elems(p) <= UsedSet(d0, v.geo)
    requires n + len <= |p| && forall k: nat :: n <= k < n + len ==> p[k] == start + (k - n)
    requires OnlyAcct(before, BlocksOf(v.log))
    modifies v`d, v`log
    ensures v.Valid() && Freed(d0, v.d, v.geo, p, n + len) && OnlyAcct(before, BlocksOf(v.log))
  {
    hide UsedSet, Elems, Overwrite, BlocksOf, Freed, Distinct, OnlyAcct;
    for k := 0 to len
      invariant v.Valid() && Freed(d0, v.d, v.geo, p, n + k) && OnlyAcct(before, BlocksOf(v.log))
    {
      ghost var mid := BlocksOf(v.log);
      FreeNth(v, start + k, d0, p, n + k);
      OnlyAcctTrans(before, mid, BlocksOf(v.log));
    }
  }

  /** Where an extent's blocks lie in the file. */
  lemma RunOfFile(xs: seq<Extent>, p: seq<nat>, e: nat)
    requires Runs(xs, p) && e < |xs|
    ensures xs[e].first == End(xs, e) && End(xs, e) + xs[e].len == End(xs, e + 1) <= |p|
    ensures forall k: nat :: End(xs, e) <= k < End(xs, e) + xs[e].len ==> p[k] == xs[e].start + (k - End(xs, e))
  {
    assert RunOk(xs, p, e);
  }

  /** free_extents: visits the file's blocks in order, each once, and frees them. */
  method FreeExtents(v: Device, raw: Raw, ghost p: seq<nat>)
    requires v.Valid() && Accounting(v.d, v.geo) && Holds(AreaOf(raw), p) && Distinct(p)
      && Elems(p) <= UsedSet(v.d, v.geo)
    modifies v`d, v`log
    ensures v.Valid() && Freed(old(v.d), v.d, v.geo, p, |p|) && OnlyAcct(BlocksOf(old(v.log)), BlocksOf(v.log))
  {
    hide Accounting, UsedSet, Elems, Overwrite, BlocksOf, Freed, Distinct, R16, R32, StartOf, RunsOf, OnlyAcct, RunOk,
         Runs;
    ghost var d0 := v.d;
    ghost var before := BlocksOf(v.log);
    ghost var xs := RunsOf(p);
    var ib := AreaOf(raw);
    FreedNone(d0, v.geo, p);
    OnlyAcctRefl(before);
    AreaEnds(ib, p);
    if R16(ib, 0) != EXTENT_MAGIC {
      return;
    }
    var e := 0;
    ghost var n := 0;
    while e < R16(ib, 2)
      invariant e <= |xs| && n == End(xs, e) && n <= |p|
      invariant v.Valid() && Freed(d0, v.d, v.geo, p, n) && OnlyAcct(before, BlocksOf(v.log))
    {
      RunOfFile(xs, p, e);
      assert xs[e] == EntryAt(ib, e);
      var len, start := R16(ib, Slot(e) + 4) % 0x8000, StartOf(ib, Slot(e));
      FreeRun(v, start, len, d0, p, n, before);
      n := n + len;
      e := e + 1;
    }
  }

  lemma AreaEnds(b: Area, p: seq<nat>)
    requires Holds(b, p)
    ensures End(RunsOf(p), |RunsOf(p)|) == |p|
    ensures if HasMagic(b) then |RunsOf(p)| == R16(b, 2) <= MAX_ENTRIES else RunsOf(p) == [] && p == []
  {
  }
}
