/** Directory entries on FAT32 and the chains they name: every entry in use leads to a chain of its own,
    through writing, replacing and removing files. */
module FatDirs {
  import opened Bytes
  import opened Collections
  import opened Wrappers
  import opened FatChains
  import opened Fat
  import opened FatVolume
  import opened FatFiles

  const ATTR_LFN: nat := 0x0F
  const ATTR_ARCHIVE: Byte := 0x20

  // ---- one entry of 32 bytes ----

  datatype Entry = Entry(name: seq<Byte>, attr: Byte, cluster: nat, size: nat)

  predicate EntryOk(e: Entry) { |e.name| == 11 && e.cluster < U32_LIMIT && e.size < U32_LIMIT }

  /** The first cluster, in two halves. */
  function ClusterField(b: Sector, k: nat): (c: nat)
    requires k < 16
    ensures c < U32_LIMIT
  {
    0x1_0000 * R16(b, 32 * k + 20) + R16(b, 32 * k + 26)
  }

  function SizeField(b: Sector, k: nat): nat
    requires k < 16
  {
    R32(b, 32 * k + 28)
  }

  /** The walk of a directory takes the slot for an entry: not deleted, no long name, not "." or "..". */
  predicate Live(b: Sector, k: nat)
    requires k < 16
  {
    var o := 32 * k;
    && b[o] != 0 && b[o] != 0xE5 && b[o + 11] != ATTR_LFN
    && !(b[o] == 0x2E && (b[o + 1] == 0x20 || b[o + 1] == 0x2E))
  }

  /** write_entry_at: name, attributes, both halves of the cluster, size. */
  function EntryPut(b: Sector, k: nat, e: Entry): (r: Sector)
    requires k < 16 && EntryOk(e)
  {
    var o := 32 * k;
    var named: Sector := b[..o] + e.name + b[o + 11..];
    W32(W16(W16(named[o + 11 := e.attr], o + 20, e.cluster / 0x1_0000), o + 26, e.cluster % 0x1_0000), o + 28, e.size)
  }

  lemma EntryPutReads(b: Sector, k: nat, e: Entry)
    requires k < 16 && EntryOk(e)
    ensures var r := EntryPut(b, k, e);
      && ClusterField(r, k) == e.cluster && SizeField(r, k) == e.size && r[32 * k..32 * k + 11] == e.name
         && r[32 * k + 11] == e.attr
    ensures forall j :: 0 <= j < 512 && !(32 * k <= j < 32 * k + 32) ==> EntryPut(b, k, e)[j] == b[j]
    ensures var r, o := EntryPut(b, k, e), 32 * k;
      r[o + 12..o + 20] == b[o + 12..o + 20] && r[o + 22..o + 26] == b[o + 22..o + 26]
  {
    hide R16, R32, W16, W32;
    var o := 32 * k;
    var named: Sector := b[..o] + e.name + b[o + 11..];
    var a := named[o + 11 := e.attr];
    var h := W16(a, o + 20, e.cluster / 0x1_0000);
    var l := W16(h, o + 26, e.cluster % 0x1_0000);
    var r := W32(l, o + 28, e.size);
    LaterStores(h, l, r, o);
    assert r[o..o + 11] == e.name;
  }

  lemma LaterStores(h: seq<Byte>, l: seq<Byte>, r: seq<Byte>, o: nat)
    requires |h| == |l| == |r| == 512 && o + 32 <= 512
    requires forall i :: 0 <= i < 512 && !(o + 26 <= i < o + 28) ==> l[i] == h[i]
    requires forall i :: 0 <= i < 512 && !(o + 28 <= i < o + 32) ==> r[i] == l[i]
    ensures R16(r, o + 20) == R16(h, o + 20) && R16(r, o + 26) == R16(l, o + 26)
  {
  }

  /** wipe_entry_at */
  function EntryWiped(b: Sector, k: nat): (r: Sector)
    requires k < 16
  {
    b[32 * k := 0xE5]
  }

  /** A slot whose bytes are the same is the same entry. */
  lemma SlotBytes(b: Sector, c: Sector, k: nat)
    requires k < 16 && forall j :: 32 * k <= j < 32 * k + 32 ==> c[j] == b[j]
    ensures Live(c, k) == Live(b, k) && ClusterField(c, k) == ClusterField(b, k)
  {
  }

  /** The 32 bytes of a slot. */
  function SlotOf(d: Sectors, lba: nat, k: nat): seq<Byte> {
    if lba < |d| && k < 16 then d[lba][32 * k..32 * k + 32] else []
  }

  // ---- a directory and its chains ----

  /** Slot `k` of sector `lba` lies in one of the clusters `p`. */
  ghost predicate IsSlot(n: nat, i: Info, p: seq<nat>, lba: nat, k: nat) {
    lba < n && k < 16 && exists m: nat, s: nat :: SectorIn(i, p, m, s, lba)
  }

  ghost predicate InUse(d: Sectors, i: Info, p: seq<nat>, lba: nat, k: nat) {
    IsSlot(|d|, i, p, lba, k) && Live(d[lba], k)
  }

  function FirstCluster(d: Sectors, lba: nat, k: nat): nat {
    if lba < |d| && k < 16 then ClusterField(d[lba], k) else 0
  }

  /** The entry has no clusters, or a chain that is not the directory's own. */
  ghost predicate Leads(d: Sectors, i: Info, f: Forest, dir: nat, lba: nat, k: nat) {
    FirstCluster(d, lba, k) != 0 ==> FirstCluster(d, lba, k) in f && FirstCluster(d, lba, k) != dir
  }

  /** Every entry of the directory leads to a chain, and no two lead to the same one. */
  ghost predicate Rooted(d: Sectors, i: Info, f: Forest, dir: nat) {
    && dir in f
    && (forall lba: nat, k: nat :: InUse(d, i, f[dir], lba, k) ==> Leads(d, i, f, dir, lba, k))
    && (forall lba: nat, k: nat, lba': nat, k': nat ::
          InUse(d, i, f[dir], lba, k) && InUse(d, i, f[dir], lba', k') && Shares(d, lba, k, lba', k') ==>
            lba == lba' && k == k')
  }

  /** Both entries lead to the same chain. */
  predicate Shares(d: Sectors, lba: nat, k: nat, lba': nat, k': nat) {
    FirstCluster(d, lba, k) != 0 && FirstCluster(d, lba, k) == FirstCluster(d, lba', k')
  }

  /** So every entry's chain is finite, free of cycles, ended, and disjoint from every other chain. */
  lemma EntriesApart(d: Sectors, i: Info, f: Forest, dir: nat, lba: nat, k: nat, lba': nat, k': nat)
    requires FatOk(d, i, f) && Rooted(d, i, f, dir) && InUse(d, i, f[dir], lba, k) && InUse(d, i, f[dir], lba', k')
    requires FirstCluster(d, lba, k) != 0 && FirstCluster(d, lba', k') != 0 && (lba != lba' || k != k')
    ensures var a, b := FirstCluster(d, lba, k), FirstCluster(d, lba', k');
      && a in f && b in f && Chain(TableOf(d, i), f[a]) && f[a] != [] && f[a][0] == a && Elems(f[a]) !! Elems(f[b])
  {
    hide Layout, TableOf, Chain, SameCopies;
    assert Leads(d, i, f, dir, lba, k) && Leads(d, i, f, dir, lba', k');
    OldChain(TableOf(d, i), f, FirstCluster(d, lba, k));
  }

  /** The directory's sectors are untouched, and what its entries lead to is still there. */
  lemma RootedKept(d: Sectors, e: Sectors, i: Info, f: Forest, g: Forest, dir: nat)
    requires Rooted(d, i, f, dir) && dir in g && g[dir] == f[dir] && |e| == |d|
    requires forall lba: nat, k: nat :: IsSlot(|d|, i, f[dir], lba, k) ==> e[lba] == d[lba]
    requires forall lba: nat, k: nat ::
               InUse(d, i, f[dir], lba, k) && FirstCluster(d, lba, k) != 0 ==> FirstCluster(d, lba, k) in g
    ensures Rooted(e, i, g, dir)
  {
    hide IsSlot, Live, ClusterField;
    forall lba: nat, k: nat | InUse(e, i, g[dir], lba, k)
      ensures Leads(e, i, g, dir, lba, k) && InUse(d, i, f[dir], lba, k)
        && FirstCluster(e, lba, k) == FirstCluster(d, lba, k)
    {
      SlotPlace(|d|, i, f[dir], lba, k);
      assert Leads(d, i, f, dir, lba, k);
    }
  }

  lemma SlotPlace(n: nat, i: Info, p: seq<nat>, lba: nat, k: nat)
    requires IsSlot(n, i, p, lba, k)
    ensures lba < n && k < 16
  {
  }

  /** Clusters outside `s` keep their slots. */
  lemma SlotsKept(d: Sectors, e: Sectors, i: Info, p: seq<nat>, s: set<nat>)
    requires Clusters(i, p) && SameClusters(d, e, i, s) && Elems(p) !! s
    ensures forall lba: nat, k: nat :: IsSlot(|d|, i, p, lba, k) ==> e[lba] == d[lba]
  {
    hide FirstSector, Distinct;
    forall lba: nat, k: nat | IsSlot(|d|, i, p, lba, k)
      ensures e[lba] == d[lba]
    {
      var m: nat, u: nat :| SectorIn(i, p, m, u, lba);
      assert p[m] in p && p[m] in Elems(p);
      ClusterOf(i, p, m);
      assert SameCluster(d, e, i, p[m]);
      assert SameSector(d, e, i, p[m], u);
    }
  }

  lemma ClusterOf(i: Info, p: seq<nat>, m: nat)
    requires Clusters(i, p) && m < |p|
    ensures 2 <= p[m] < i.clusters + 2
  {
  }

  /** The clusters of the directory. */
  lemma DirClusters(d: Sectors, i: Info, f: Forest, dir: nat)
    requires FatOk(d, i, f) && dir in f
    ensures Clusters(i, f[dir])
  {
    hide Layout, TableOf, Chain, Distinct, Elems;
    OldChain(TableOf(d, i), f, dir);
    ChainClusters(d, i, f[dir]);
  }

  /** One slot is rewritten, or wiped: the others stay as they are. */
  ghost predicate OneSlot(d: Sectors, e: Sectors, lba: nat, k: nat) {
    && lba < |d| && k < 16 && |e| == |d| && (forall x: nat :: x < |d| && x != lba ==> e[x] == d[x])
    && forall j :: 0 <= j < 512 && !(32 * k <= j < 32 * k + 32) ==> e[lba][j] == d[lba][j]
  }

  /** Every other slot of the directory keeps its 32 bytes. */
  ghost predicate OthersStay(d: Sectors, e: Sectors, i: Info, p: seq<nat>, lba: nat, k: nat) {
    |e| == |d| && forall x: nat, m: nat ::
                    IsSlot(|d|, i, p, x, m) && (x != lba || m != k) ==> SlotOf(e, x, m) == SlotOf(d, x, m)
  }

  /** The slots of the directory are the same in `d` and `m`, and in `e` one was rewritten. */
  lemma OneChanged(d: Sectors, m: Sectors, e: Sectors, i: Info, p: seq<nat>, lba: nat, k: nat)
    requires |m| == |d| && OneSlot(m, e, lba, k)
    requires forall x: nat, n: nat :: IsSlot(|d|, i, p, x, n) ==> m[x] == d[x]
    ensures OthersStay(d, e, i, p, lba, k)
  {
    forall x: nat, n: nat | IsSlot(|d|, i, p, x, n) && (x != lba || n != k)
      ensures SlotOf(e, x, n) == SlotOf(d, x, n)
    {
      assert m[x] == d[x];
      if x == lba {
        SlotsDisjoint(n, k);
        assert forall j :: 32 * n <= j < 32 * n + 32 ==> e[x][j] == m[x][j];
      }
    }
  }

  lemma SlotsDisjoint(n: nat, k: nat)
    requires n != k
    ensures 32 * n + 32 <= 32 * k || 32 * k + 32 <= 32 * n
  {
  }

  lemma OtherSlot(d: Sectors, e: Sectors, lba: nat, k: nat, x: nat, m: nat)
    requires OneSlot(d, e, lba, k) && x < |d| && m < 16 && (x != lba || m != k)
    ensures Live(e[x], m) == Live(d[x], m) && FirstCluster(e, x, m) == FirstCluster(d, x, m)
  {
    hide Live, ClusterField;
    SlotBytes(d[x], e[x], m);
  }

  /** A slot that led to `was` now leads to `now`, a chain no entry led to, or to none. */
  lemma RootedMoved(d: Sectors, e: Sectors, i: Info, f: Forest, g: Forest, dir: nat, lba: nat, k: nat, was: nat,
                    now: nat)
    requires Rooted(d, i, f, dir) && dir in g && g[dir] == f[dir] && OneSlot(d, e, lba, k)
    requires InUse(d, i, f[dir], lba, k) ==> FirstCluster(d, lba, k) == was
    requires !InUse(d, i, f[dir], lba, k) ==> was == 0
    requires forall c :: c in f && c != was ==> c in g
    requires InUse(e, i, f[dir], lba, k) ==> FirstCluster(e, lba, k) == now && (now != 0 ==> now in g && now !in f)
    ensures Rooted(e, i, g, dir)
  {
    hide IsSlot, Live, ClusterField, OneSlot, FirstCluster;
    forall x: nat, m: nat | InUse(e, i, g[dir], x, m)
      ensures Leads(e, i, g, dir, x, m)
      ensures x != lba || m != k ==> InUse(d, i, f[dir], x, m) && FirstCluster(e, x, m) == FirstCluster(d, x, m)
    {
      SlotPlace(|e|, i, f[dir], x, m);
      SlotSize(d, e, lba, k);
      if x != lba || m != k {
        OtherSlot(d, e, lba, k, x, m);
        assert Leads(d, i, f, dir, x, m);
        assert was != 0 && FirstCluster(d, x, m) == was ==> Shares(d, x, m, lba, k);
      }
    }
    forall x: nat, m: nat, y: nat, n: nat
      | InUse(e, i, g[dir], x, m) && InUse(e, i, g[dir], y, n) && Shares(e, x, m, y, n)
      ensures x == y && m == n
    {
      assert (x != lba || m != k) ==> InUse(d, i, f[dir], x, m) && Leads(d, i, f, dir, x, m);
      assert (y != lba || n != k) ==> InUse(d, i, f[dir], y, n) && Leads(d, i, f, dir, y, n);
      assert (x != lba || m != k) ==> FirstCluster(e, x, m) in f;
      assert (y != lba || n != k) ==> FirstCluster(e, y, n) in f;
      assert (x != lba || m != k) && (y != lba || n != k) ==> Shares(d, x, m, y, n);
    }
  }

  lemma SlotSize(d: Sectors, e: Sectors, lba: nat, k: nat)
    requires OneSlot(d, e, lba, k)
    ensures |e| == |d| && lba < |d| && k < 16
  {
  }

  // ---- writing entries ----

  lemma SlotCluster(d: Sectors, e: Sectors, i: Info, p: seq<nat>, lba: nat, k: nat)
    requires Layout(i, |d|) && Clusters(i, p) && IsSlot(|d|, i, p, lba, k) && |e| == |d|
    requires forall x: nat :: x < |d| && x != lba ==> e[x] == d[x]
    ensures SameElse(d, e, i, Elems(p))
  {
    var m: nat, u: nat :| SectorIn(i, p, m, u, lba);
    ClusterOf(i, p, m);
    assert p[m] in p && p[m] in Elems(p);
    WholeCluster(i, |d|, p[m]);
    hide Layout, FirstSector, Elems;
    ElseCluster(d, e, i, p[m], Elems(p));
  }

  lemma PutIsOneSlot(d: Sectors, lba: nat, k: nat, e: Entry)
    requires lba < |d| && k < 16 && EntryOk(e)
    ensures var r := PutSector(d, lba, EntryPut(d[lba], k, e));
      OneSlot(d, r, lba, k) && EntryIs(r, lba, k, e) && FirstCluster(r, lba, k) == e.cluster && RestStays(d, r, lba, k)
  {
    hide EntryPut, ClusterField, SizeField;
    EntryPutReads(d[lba], k, e);
    SlotParts(d[lba], EntryPut(d[lba], k, e), 32 * k);
  }

  lemma SlotParts(b: Sector, c: Sector, o: nat)
    requires o + 32 <= 512 && c[o + 12..o + 20] == b[o + 12..o + 20] && c[o + 22..o + 26] == b[o + 22..o + 26]
    ensures c[o..o + 32][12..20] == b[o..o + 32][12..20] && c[o..o + 32][22..26] == b[o..o + 32][22..26]
  {
    PartOfSlot(b, o, 12, 20);
    PartOfSlot(c, o, 12, 20);
    PartOfSlot(b, o, 22, 26);
    PartOfSlot(c, o, 22, 26);
  }

  lemma PartOfSlot(b: seq<Byte>, o: nat, i: nat, j: nat)
    requires i <= j <= 32 && o + 32 <= |b|
    ensures b[o..o + 32][i..j] == b[o + i..o + j]
  {
    var l, r := b[o..o + 32][i..j], b[o + i..o + j];
    assert |l| == |r| && forall n :: 0 <= n < |l| ==> l[n] == r[n];
  }

  lemma WipeIsOneSlot(d: Sectors, lba: nat, k: nat)
    requires lba < |d| && k < 16
    ensures var r := PutSector(d, lba, EntryWiped(d[lba], k));
      OneSlot(d, r, lba, k) && !Live(r[lba], k) && SlotOf(r, lba, k) == SlotOf(d, lba, k)[0 := 0xE5]
  {
  }

  /** write_entry_at */
  method WriteEntryAt(v: Volume, lba: nat, k: nat, e: Entry)
    requires lba < |v.d| && k < 16 && EntryOk(e)
    modifies v
    ensures v.d == PutSector(old(v.d), lba, EntryPut(old(v.d)[lba], k, e))
  {
    hide EntryPut;
    var b := v.ReadSector(lba);
    v.WriteSector(lba, EntryPut(b, k, e));
  }

  /** wipe_entry_at */
  method WipeEntryAt(v: Volume, lba: nat, k: nat)
    requires lba < |v.d| && k < 16
    modifies v
    ensures v.d == PutSector(old(v.d), lba, EntryWiped(old(v.d)[lba], k))
  {
    hide EntryWiped;
    var b := v.ReadSector(lba);
    v.WriteSector(lba, EntryWiped(b, k));
  }

  /** Writing a slot of the directory is no harm to the table and the chains. */
  lemma SlotWriteOk(d: Sectors, e: Sectors, i: Info, f: Forest, dir: nat, lba: nat, k: nat)
    requires FatOk(d, i, f) && dir in f && IsSlot(|d|, i, f[dir], lba, k) && OneSlot(d, e, lba, k)
    ensures FatOk(e, i, f) && SameClusters(d, e, i, Elems(f[dir]))
  {
    DirClusters(d, i, f, dir);
    hide Forested, SameCopies, TableOf, SameElse, SameClusters, Clusters, IsSlot, Elems;
    OkParts(d, i, f);
    SlotCluster(d, e, i, f[dir], lba, k);
    WrittenOk(d, e, i, f, Elems(f[dir]));
  }

  // ---- rm ----

  function Without(f: Forest, c: nat): Forest { if c == 0 then f else f - {c} }

  /** rm of the entry in a slot: its chain is free, the slot is unused, every other entry keeps its bytes and
      its chain. */
  method Remove(v: Volume, dir: nat, lba: nat, k: nat, ghost f: Forest)
    requires FatOk(v.d, v.info, f) && Rooted(v.d, v.info, f, dir) && InUse(v.d, v.info, f[dir], lba, k)
    requires FirstCluster(v.d, lba, k) != 0 ==> |f[FirstCluster(v.d, lba, k)]| <= FREE_LIMIT
    modifies v
    ensures var g := Without(f, FirstCluster(old(v.d), lba, k));
      && FatOk(v.d, v.info, g) && Rooted(v.d, v.info, g, dir) && !InUse(v.d, v.info, g[dir], lba, k)
      && SameClusters(old(v.d), v.d, v.info, Elems(f[dir]))
    ensures OthersStay(old(v.d), v.d, v.info, f[dir], lba, k)
    ensures SlotOf(v.d, lba, k) == SlotOf(old(v.d), lba, k)[0 := 0xE5]
  {
    var i := v.info;
    ghost var d := v.d;
    hide SlotOf, OthersStay, FatOk, Rooted, IsSlot, Live, ClusterField, EntryWiped, SameClusters, Elems, OneSlot,
         Replaced;
    SlotPlace(|d|, i, f[dir], lba, k);
    LeadsTo(d, i, f, dir, lba, k);
    var b := v.ReadSector(lba);
    var c := ClusterField(b, k);
    FreeOld(v, c, f, []);
    ghost var m, g := v.d, Without(f, c);
    ReplacedNone(f, c);
    DirClusters(d, i, f, dir);
    NothingIn(f[dir]);
    SlotsKept(d, m, i, f[dir], {});
    WipeIsOneSlot(m, lba, k);
    WipeEntryAt(v, lba, k);
    SlotWriteOk(m, v.d, i, g, dir, lba, k);
    WipedMoved(d, m, v.d, i, f, g, dir, lba, k, c);
    OneChanged(d, m, v.d, i, f[dir], lba, k);
    SameSlot(d, m, lba, k);
    ClustersMore(d, m, v.d, i, Elems(f[dir]));
  }

  lemma NothingIn(p: seq<nat>)
    ensures Elems(p) !! {}
  {
  }

  lemma ReplacedNone(f: Forest, c: nat)
    ensures Replaced(f, c, []) == Without(f, c)
  {
  }

  lemma LeadsTo(d: Sectors, i: Info, f: Forest, dir: nat, lba: nat, k: nat)
    requires Rooted(d, i, f, dir) && InUse(d, i, f[dir], lba, k)
    ensures Leads(d, i, f, dir, lba, k) && dir in f
  {
    hide InUse;
  }

  lemma WipedMoved(d: Sectors, m: Sectors, e: Sectors, i: Info, f: Forest, g: Forest, dir: nat, lba: nat, k: nat,
                   c: nat)
    requires Rooted(d, i, f, dir) && InUse(d, i, f[dir], lba, k) && c == FirstCluster(d, lba, k) && g == Without(f, c)
    requires |m| == |d| && forall x: nat, n: nat :: IsSlot(|d|, i, f[dir], x, n) ==> m[x] == d[x]
    requires OneSlot(m, e, lba, k) && !Live(e[lba], k)
    ensures Rooted(e, i, g, dir) && !InUse(e, i, g[dir], lba, k)
  {
    hide IsSlot, Live, ClusterField, OneSlot, FirstCluster;
    LeadsTo(d, i, f, dir, lba, k);
    SlotSize(m, e, lba, k);
    SameHere(d, m, lba, k);
    RootedSame(d, m, i, f, dir);
    RootedMoved(m, e, i, f, g, dir, lba, k, c, 0);
  }

  lemma SameHere(d: Sectors, m: Sectors, lba: nat, k: nat)
    requires lba < |d| == |m| && k < 16
    ensures m[lba] == d[lba] ==> FirstCluster(m, lba, k) == FirstCluster(d, lba, k)
  {
  }

  lemma SameSlot(d: Sectors, m: Sectors, lba: nat, k: nat)
    requires lba < |d| == |m| && k < 16 && m[lba] == d[lba]
    ensures |SlotOf(d, lba, k)| == 32 && SlotOf(m, lba, k) == SlotOf(d, lba, k)
  {
  }

  lemma RootedSame(d: Sectors, m: Sectors, i: Info, f: Forest, dir: nat)
    requires Rooted(d, i, f, dir) && |m| == |d|
    requires forall x: nat, n: nat :: IsSlot(|d|, i, f[dir], x, n) ==> m[x] == d[x]
    ensures Rooted(m, i, f, dir)
  {
    hide IsSlot, Live, ClusterField, FirstCluster;
    forall lba: nat, k: nat | InUse(d, i, f[dir], lba, k) && FirstCluster(d, lba, k) != 0
      ensures FirstCluster(d, lba, k) in f
    {
      LeadsTo(d, i, f, dir, lba, k);
    }
    RootedKept(d, m, i, f, f, dir);
  }

  // ---- write_file with its entry ----

  /** The entry of a file in its slot. */
  ghost predicate EntryIs(d: Sectors, lba: nat, k: nat, e: Entry) {
    && lba < |d| && k < 16 && FirstCluster(d, lba, k) == e.cluster && SizeField(d[lba], k) == e.size
    && d[lba][32 * k..32 * k + 11] == e.name && d[lba][32 * k + 11] == e.attr
  }

  /** The bytes of the slot that are no part of an entry here, such as its dates. */
  ghost predicate RestStays(d: Sectors, e: Sectors, lba: nat, k: nat) {
    && |e| == |d| && lba < |d| && k < 16
    && SlotOf(e, lba, k)[12..20] == SlotOf(d, lba, k)[12..20] && SlotOf(e, lba, k)[22..26] == SlotOf(d, lba, k)[22..26]
  }

  function AttrOf(d: Sectors, lba: nat, k: nat): Byte {
    if lba < |d| && k < 16 then d[lba][32 * k + 11] else 0
  }

  function Head(p: seq<nat>): nat { if p == [] then 0 else p[0] }

  /** What write_file leaves: the slot names the new chain, the chain holds the data. */
  ghost predicate Saved(d: Sectors, i: Info, g: Forest, dir: nat, lba: nat, k: nat, name: seq<Byte>, attr: Byte,
                        p: seq<nat>, data: seq<Byte>) {
    && FatOk(d, i, g) && Rooted(d, i, g, dir) && EntryIs(d, lba, k, Entry(name, attr, Head(p), |data|))
    && FileHolds(d, i, p, data)
    && (p != [] ==> Head(p) in g && g[Head(p)] == p)
  }

  /** The second half of write_file: the entry, then the data. `m` is the disk before the entry. */
  method FinishFile(v: Volume, dir: nat, lba: nat, k: nat, name: seq<Byte>, attr: Byte, p: seq<nat>, data: seq<Byte>,
                    ghost f: Forest, ghost g: Forest, ghost was: nat)
    requires FatOk(v.d, v.info, g) && Rooted(v.d, v.info, f, dir) && dir in g && g[dir] == f[dir]
    requires IsSlot(|v.d|, v.info, f[dir], lba, k) && |name| == 11 && |data| <= MAX_FILE
    requires if InUse(v.d, v.info, f[dir], lba, k) then FirstCluster(v.d, lba, k) == was else was == 0
    requires forall c :: c in f && c != was ==> c in g
    requires (p == [] <==> data == []) && |data| <= Start(v.info, |p|)
    requires p != [] ==> p[0] != 0 && p[0] in g && p[0] !in f && g[p[0]] == p && Clusters(v.info, p)
    modifies v
    ensures |v.d| == |old(v.d)| && Saved(v.d, v.info, g, dir, lba, k, name, attr, p, data)
    ensures SameClusters(old(v.d), v.d, v.info, Elems(g[dir]) + Elems(p))
    ensures OthersStay(old(v.d), v.d, v.info, f[dir], lba, k) && RestStays(old(v.d), v.d, lba, k)
  {
    var i := v.info;
    hide OthersStay, SlotOf, RestStays, EntryIs, FatOk, Rooted, IsSlot, Live, ClusterField, SizeField, EntryPut,
         SameClusters, Elems, OneSlot, FileHolds, Start, Clusters, FirstCluster;
    ghost var m := v.d;
    SlotPlace(|m|, i, f[dir], lba, k);
    var e := Entry(name, attr, Head(p), |data|);
    FirstFits(m, i, g, p);
    PutIsOneSlot(m, lba, k, e);
    WriteEntryAt(v, lba, k, e);
    ghost var n := v.d;
    SlotWriteOk(m, n, i, g, dir, lba, k);
    RootedMoved(m, n, i, f, g, dir, lba, k, was, Head(p));
    OneChanged(m, m, n, i, f[dir], lba, k);
    FatLayout(n, i, g);
    NoClusters(i, n, data);
    SameMore(m, n, i, Elems(g[dir]), Elems(p));
    if p != [] {
      WriteChain(v, p, data);
      WrittenOk(n, v.d, i, g, Elems(p));
      ChainApart(n, i, g, dir, p[0]);
      DirClusters(n, i, g, dir);
      SlotsKept(n, v.d, i, g[dir], Elems(p));
      RootedSame(n, v.d, i, g, dir);
      EntryStays(n, v.d, i, g[dir], lba, k, e);
      SlotsThen(m, n, v.d, i, g[dir], lba, k);
      BothSame(m, n, v.d, i, Elems(g[dir]), Elems(p));
    }
  }

  lemma FirstFits(d: Sectors, i: Info, g: Forest, p: seq<nat>)
    requires FatOk(d, i, g) && (p != [] ==> p[0] in g && g[p[0]] == p)
    ensures Head(p) < U32_LIMIT
  {
    if p != [] {
      DirClusters(d, i, g, p[0]);
      ClusterOf(i, p, 0);
    }
  }

  lemma FatLayout(d: Sectors, i: Info, f: Forest)
    requires FatOk(d, i, f)
    ensures Layout(i, |d|)
  {
  }

  lemma SameMore(d: Sectors, e: Sectors, i: Info, s: set<nat>, t: set<nat>)
    requires SameClusters(d, e, i, s)
    ensures SameClusters(d, e, i, s + t)
  {
    hide SameCluster;
  }

  lemma BothSame(d: Sectors, e: Sectors, g: Sectors, i: Info, s: set<nat>, t: set<nat>)
    requires SameClusters(d, e, i, s) && SameClusters(e, g, i, t)
    ensures SameClusters(d, g, i, s + t)
  {
    SameMore(d, e, i, s, t);
    SameMore(e, g, i, t, s);
    assert t + s == s + t;
    ClustersTrans(d, e, g, i, s + t);
  }

  lemma ChainApart(d: Sectors, i: Info, g: Forest, dir: nat, c: nat)
    requires FatOk(d, i, g) && dir in g && c in g && c != dir
    ensures Elems(g[dir]) !! Elems(g[c])
  {
    hide Layout, TableOf, Chain, SameCopies;
  }

  lemma EntryStays(d: Sectors, e: Sectors, i: Info, p: seq<nat>, lba: nat, k: nat, entry: Entry)
    requires EntryIs(d, lba, k, entry) && |e| == |d| && IsSlot(|d|, i, p, lba, k)
    requires forall x: nat, n: nat :: IsSlot(|d|, i, p, x, n) ==> e[x] == d[x]
    ensures EntryIs(e, lba, k, entry)
  {
    hide IsSlot;
  }

  /** Nothing in the directory changes from `n` to `e`. */
  lemma SlotsThen(m: Sectors, n: Sectors, e: Sectors, i: Info, p: seq<nat>, lba: nat, k: nat)
    requires OthersStay(m, n, i, p, lba, k) && RestStays(m, n, lba, k) && |e| == |n| && IsSlot(|n|, i, p, lba, k)
    requires forall x: nat, j: nat :: IsSlot(|n|, i, p, x, j) ==> e[x] == n[x]
    ensures OthersStay(m, e, i, p, lba, k) && RestStays(m, e, lba, k)
  {
    hide IsSlot;
    forall x: nat, j: nat | IsSlot(|m|, i, p, x, j) && (x != lba || j != k)
      ensures SlotOf(e, x, j) == SlotOf(m, x, j)
    {
      SlotPlace(|m|, i, p, x, j);
      assert e[x] == n[x] && SlotOf(n, x, j) == SlotOf(m, x, j);
    }
  }

  /** Nothing in the directory changed from `d` to `m`. */
  lemma SlotsSince(d: Sectors, m: Sectors, e: Sectors, i: Info, p: seq<nat>, lba: nat, k: nat)
    requires OthersStay(m, e, i, p, lba, k) && |m| == |d|
    requires forall x: nat, j: nat :: IsSlot(|d|, i, p, x, j) ==> m[x] == d[x]
    ensures OthersStay(d, e, i, p, lba, k)
    ensures IsSlot(|d|, i, p, lba, k) && RestStays(m, e, lba, k) ==> RestStays(d, e, lba, k)
  {
    hide IsSlot;
    forall x: nat, j: nat | IsSlot(|d|, i, p, x, j) && (x != lba || j != k)
      ensures SlotOf(e, x, j) == SlotOf(d, x, j)
    {
      SlotPlace(|d|, i, p, x, j);
      assert m[x] == d[x] && SlotOf(e, x, j) == SlotOf(m, x, j);
    }
    if IsSlot(|d|, i, p, lba, k) {
      SlotPlace(|d|, i, p, lba, k);
      assert m[lba] == d[lba];
    }
  }

  /** write_file over an existing entry of the directory: the entry, with the attributes it had, leads to a
      new chain that holds exactly the data, the old chain is free, every other slot of the directory keeps
      its bytes and every other entry its chain. It fails exactly if
      there are fewer free clusters than the data takes, although the old ones could be had; then no
      cluster is written, the entries are as before, and all free clusters are lost as the chain `p`. */
  method Replace(v: Volume, dir: nat, lba: nat, k: nat, name: seq<Byte>, data: seq<Byte>, ghost f: Forest)
    returns (err: Option<FsErr>, ghost p: seq<nat>)
    requires FatOk(v.d, v.info, f) && Rooted(v.d, v.info, f, dir) && InUse(v.d, v.info, f[dir], lba, k) && |name| == 11
    requires FirstCluster(v.d, lba, k) != 0 ==> |f[FirstCluster(v.d, lba, k)]| <= FREE_LIMIT
    modifies v
    ensures |v.d| == |old(v.d)| && v.info.spc >= 1
    ensures err == if |data| > MAX_FILE then Some(TooBig)
                   else if Enough(TableOf(old(v.d), v.info), v.info, |data|) then None
                   else Some(NoSpace)
    ensures err == Some(TooBig) ==> v.d == old(v.d)
    ensures |data| <= MAX_FILE ==> p == TakenFor(TableOf(old(v.d), v.info), v.info, |data|)
    ensures err.None? ==>
              && Saved(v.d, v.info, Replaced(f, FirstCluster(old(v.d), lba, k), p), dir, lba, k, name,
                       AttrOf(old(v.d), lba, k), p, data)
              && SameClusters(old(v.d), v.d, v.info, Elems(f[dir]) + Elems(p))
              && OthersStay(old(v.d), v.d, v.info, f[dir], lba, k) && RestStays(old(v.d), v.d, lba, k)
    ensures err == Some(NoSpace) ==> Leaked(old(v.d), v.d, v.info, f, dir, p)
  {
    var i := v.info;
    hide OthersStay, RestStays, SlotOf, FatOk, Rooted, IsSlot, Live, ClusterField, SameClusters, Elems, FileHolds,
         Start, Clusters, Saved, Replaced, WithLost, FreeClusters, TakenFor, Enough, TableOf, Leaked;
    p := [];
    ghost var d := v.d;
    FatLayout(d, i, f);
    SpcPositive(i, |d|);
    if |data| > MAX_FILE {
      return Some(TooBig), p;
    }
    SlotPlace(|d|, i, f[dir], lba, k);
    LeadsTo(d, i, f, dir, lba, k);
    var b := v.ReadSector(lba);
    var was := ClusterField(b, k);
    var ok, chain := TakeChain(v, was, |data|, f);
    p := chain;
    ghost var m := v.d;
    DirClusters(d, i, f, dir);
    NothingIn(f[dir]);
    SlotsKept(d, m, i, f[dir], {});
    RootedSame(d, m, i, f, dir);
    if !ok {
      IsLeak(d, m, i, f, dir, p);
      return Some(NoSpace), p;
    }
    SameHere(d, m, lba, k);
    SameUse(d, m, i, f[dir], lba, k);
    ReplacedParts(m, i, f, was, chain, dir);
    FinishFile(v, dir, lba, k, name, b[32 * k + 11], chain, data, f, Replaced(f, was, chain), was);
    UseSlot(|d|, d, i, f[dir], lba, k);
    SlotsSince(d, m, v.d, i, f[dir], lba, k);
    ThenSame(d, m, v.d, i, Elems(f[dir]) + Elems(p));
    return None, p;
  }

  lemma UseSlot(n: nat, d: Sectors, i: Info, p: seq<nat>, lba: nat, k: nat)
    requires InUse(d, i, p, lba, k) && n == |d|
    ensures IsSlot(n, i, p, lba, k)
  {
    hide IsSlot;
  }

  lemma SameUse(d: Sectors, m: Sectors, i: Info, p: seq<nat>, lba: nat, k: nat)
    requires InUse(d, i, p, lba, k) && |m| == |d| && forall x: nat, n: nat :: IsSlot(|d|, i, p, x, n) ==> m[x] == d[x]
    ensures InUse(m, i, p, lba, k) && m[lba] == d[lba]
  {
    hide IsSlot, Live;
  }

  lemma ThenSame(d: Sectors, m: Sectors, e: Sectors, i: Info, s: set<nat>)
    requires SameClusters(d, m, i, {}) && SameClusters(m, e, i, s)
    ensures SameClusters(d, e, i, s)
  {
    hide SameClusters;
    ClustersMore(d, m, e, i, s);
  }

  /** A chain that no entry names does not matter to the directory. */
  lemma RootedLost(d: Sectors, i: Info, f: Forest, p: seq<nat>, dir: nat)
    requires Rooted(d, i, f, dir) && (p != [] ==> p[0] !in f)
    ensures Rooted(d, i, WithLost(f, p), dir)
  {
    hide IsSlot, Live, ClusterField, FirstCluster;
    forall lba: nat, k: nat | InUse(d, i, f[dir], lba, k) && FirstCluster(d, lba, k) != 0
      ensures FirstCluster(d, lba, k) in WithLost(f, p)
    {
      LeadsTo(d, i, f, dir, lba, k);
    }
    RootedKept(d, d, i, f, WithLost(f, p), dir);
  }

  /** The entries are as before, no cluster was written, and the clusters `p` are allocated although no
      entry of the directory leads to them. No cluster is free any more. */
  ghost predicate Leaked(d: Sectors, e: Sectors, i: Info, f: Forest, dir: nat, p: seq<nat>) {
    && FatOk(e, i, WithLost(f, p)) && Rooted(e, i, WithLost(f, p), dir) && Rooted(e, i, f, dir)
    && SameClusters(d, e, i, {}) && (p != [] ==> p[0] !in f) && FreeClusters(TableOf(e, i)) == []
  }

  lemma IsLeak(d: Sectors, e: Sectors, i: Info, f: Forest, dir: nat, p: seq<nat>)
    requires FatOk(e, i, WithLost(f, p)) && Rooted(e, i, f, dir) && SameClusters(d, e, i, {})
    requires (p != [] ==> p[0] !in f) && Layout(i, |e|) && FreeClusters(TableOf(e, i)) == []
    ensures Leaked(d, e, i, f, dir, p)
  {
    hide FatOk, Rooted, SameClusters, FreeClusters, TableOf, WithLost;
    RootedLost(e, i, f, p, dir);
  }

  /** What is in the forest after the exchange of chains. */
  lemma ReplacedParts(d: Sectors, i: Info, f: Forest, was: nat, p: seq<nat>, dir: nat)
    requires FatOk(d, i, Replaced(f, was, p)) && dir in f && was != dir && (p != [] ==> p[0] !in f)
    ensures var g := Replaced(f, was, p);
      && dir in g && g[dir] == f[dir] && (forall c :: c in f && c != was ==> c in g)
      && (p != [] ==> p[0] in g && g[p[0]] == p && p[0] != 0)
  {
    hide Layout, TableOf, SameCopies;
    if p != [] {
      DirClusters(d, i, Replaced(f, was, p), p[0]);
      ClusterOf(i, p, 0);
    }
  }

  lemma NotClear(e: Sectors, i: Info, c: nat, lba: nat, k: nat, u: nat)
    requires IsClear(e, i, c) && u < i.spc && lba < |e| && k < 16 && Live(e[lba], k)
    ensures lba != FirstSector(i, c) + u
  {
    hide FirstSector;
    assert ClearSector(e, i, c, u);
  }

  /** An entry of the grown directory is an entry of it as it was: the new cluster is clear. */
  lemma GrownUse(d: Sectors, e: Sectors, i: Info, p: seq<nat>, c: nat, lba: nat, k: nat)
    requires Clusters(i, p) && SameClusters(d, e, i, {c}) && c !in p && IsClear(e, i, c) && InUse(e, i, p + [c], lba, k)
    ensures InUse(d, i, p, lba, k) && FirstCluster(e, lba, k) == FirstCluster(d, lba, k)
  {
    hide FirstSector, Distinct, ClusterField;
    var q := p + [c];
    var m: nat, u: nat :| SectorIn(i, q, m, u, lba);
    NotClear(e, i, c, lba, k, u);
    assert q[m] == p[m] && p[m] in p;
    ClusterOf(i, p, m);
    assert SameCluster(d, e, i, p[m]) && SameSector(d, e, i, p[m], u);
    assert SectorIn(i, p, m, u, lba);
  }

  lemma RootedGrown(d: Sectors, e: Sectors, i: Info, f: Forest, dir: nat, c: nat)
    requires Rooted(d, i, f, dir) && Clusters(i, f[dir]) && SameClusters(d, e, i, {c}) && c !in f[dir]
      && IsClear(e, i, c)
    ensures Rooted(e, i, f[dir := f[dir] + [c]], dir)
  {
    hide Clusters, SameClusters, IsClear, FirstCluster, InUse;
    var g := f[dir := f[dir] + [c]];
    forall lba: nat, k: nat | InUse(e, i, g[dir], lba, k)
      ensures InUse(d, i, f[dir], lba, k) && FirstCluster(e, lba, k) == FirstCluster(d, lba, k)
        && Leads(e, i, g, dir, lba, k)
    {
      GrownUse(d, e, i, f[dir], c, lba, k);
      assert Leads(d, i, f, dir, lba, k);
    }
    forall x: nat, m: nat, y: nat, n: nat | InUse(e, i, g[dir], x, m) && InUse(e, i, g[dir], y, n)
      && Shares(e, x, m, y, n)
      ensures x == y && m == n
    {
      assert InUse(d, i, f[dir], x, m) && InUse(d, i, f[dir], y, n) && Shares(d, x, m, y, n);
    }
  }

  /** find_free_slot, seen from the directory: it shows the same entries, in `h[dir]`, and the slot is free. */
  lemma SlotFound(d: Sectors, e: Sectors, i: Info, f: Forest, g: Forest, after: Forest, dir: nat, lba: nat, k: nat)
    requires Rooted(d, i, f, dir) && Clusters(i, f[dir]) && dir in g && g[dir] == f[dir] && dir in after
    requires (after == g && e == d) || exists c: nat :: GrewBy(d, e, i, g, after, dir, c)
    requires SlotIn(e, i, after[dir], lba, k)
    ensures Rooted(e, i, f[dir := after[dir]], dir) && IsSlot(|e|, i, after[dir], lba, k)
      && !InUse(e, i, after[dir], lba, k)
    ensures forall c :: c in g ==> c in after && (c != dir ==> after[c] == g[c])
  {
    hide Clusters, IsClear, SameClusters, SectorIn, Rooted;
    RootedDir(d, i, f, dir);
    if after == g && e == d {
      assert f[dir := after[dir]] == f;
    } else {
      var c: nat :| GrewBy(d, e, i, g, after, dir, c);
      RootedGrown(d, e, i, f, dir, c);
    }
  }

  /** What write_file of a new name answers: the data needs its clusters, and the directory, if it has
      no free slot, one more. */
  ghost function CreateAnswer(d: Sectors, i: Info, p: seq<nat>, n: nat): Option<FsErr>
    requires Layout(i, |d|) && i.spc >= 1
  {
    var t := TableOf(d, i);
    if n > MAX_FILE then Some(TooBig)
    else if Enough(t, i, n) && (HasSlot(d, i, p) || NumClusters(i, n) < |FreeClusters(t)|) then None
    else Some(NoSpace)
  }

  /** The directory grows exactly if it has no free slot, by the cluster behind the data's. */
  ghost function DirAfter(d: Sectors, i: Info, p: seq<nat>, n: nat): seq<nat>
    requires Layout(i, |d|) && i.spc >= 1 && CreateAnswer(d, i, p, n).None?
  {
    if HasSlot(d, i, p) then p else p + [FreeClusters(TableOf(d, i))[NumClusters(i, n)]]
  }

  /** write_file of a new name: a chain for the data, a free slot, which may make the directory grow,
      the entry, the data. On a full disk the entries are as before, and all free clusters are lost:
      fewer than the data takes, or just as many, when the directory cannot grow any more. */
  method Create(v: Volume, dir: nat, name: seq<Byte>, data: seq<Byte>, ghost f: Forest)
    returns (err: Option<FsErr>, lba: nat, k: nat, ghost p: seq<nat>, ghost after: Forest)
    requires FatOk(v.d, v.info, f) && Rooted(v.d, v.info, f, dir) && |name| == 11
    modifies v
    ensures |v.d| == |old(v.d)| && Layout(v.info, |v.d|) && dir in f
    ensures err == CreateAnswer(old(v.d), v.info, f[dir], |data|)
    ensures err == Some(TooBig) ==> v.d == old(v.d)
    ensures |data| <= MAX_FILE ==> p == TakenFor(TableOf(old(v.d), v.info), v.info, |data|)
    ensures err.None? ==> Saved(v.d, v.info, after, dir, lba, k, name, ATTR_ARCHIVE, p, data)
    ensures err.None? ==> OnlyAdded(old(v.d), v.d, v.info, f[dir], after[dir], lba, k)
    ensures err.None? ==> dir in after && after[dir] == DirAfter(old(v.d), v.info, f[dir], |data|)
    ensures err.None? ==> forall c :: c in f ==> c in after && (c != dir ==> after[c] == f[c])
    ensures err == Some(NoSpace) ==> Leaked(old(v.d), v.d, v.info, f, dir, p)
  {
    var i := v.info;
    hide OnlyAdded, OthersStay, RestStays, SlotOf, FatOk, Rooted, IsSlot, Live, ClusterField, SameClusters, Elems,
         FileHolds, Start, Clusters, Saved, SlotIn, GrewBy, InUse, FreeClusters, TakenFor, TableOf, Leaked, HasSlot,
         NumClusters;
    p, lba, k, after := [], 0, 0, f;
    ghost var d := v.d;
    RootedDir(d, i, f, dir);
    FatLayout(d, i, f);
    SpcPositive(i, |d|);
    if |data| > MAX_FILE {
      return Some(TooBig), lba, k, p, after;
    }
    var ok, chain := TakeChain(v, 0, |data|, f);
    p := chain;
    ghost var m, g := v.d, WithLost(f, p);
    DirClusters(d, i, f, dir);
    NothingIn(f[dir]);
    SlotsKept(d, m, i, f[dir], {});
    RootedSame(d, m, i, f, dir);
    SameSlots(d, m, i, f[dir]);
    TakenCount(TableOf(d, i), i, |data|);
    if !ok {
      IsLeak(d, m, i, f, dir, p);
      return Some(NoSpace), lba, k, p, after;
    }
    LostParts(m, i, f, p, dir);
    var slot;
    slot, after := FindFreeSlot(v, dir, g);
    if slot.Err? {
      IsLeak(d, m, i, f, dir, p);
      return Some(NoSpace), lba, k, p, f;
    }
    lba, k := slot.value.0, slot.value.1;
    SlotFound(m, v.d, i, f, g, after, dir, lba, k);
    ghost var n := v.d;
    FinishFile(v, dir, lba, k, name, ATTR_ARCHIVE, chain, data, f[dir := after[dir]], after, 0);
    Added(d, m, n, v.d, i, f, g, after, dir, lba, k);
    return None, lba, k, p, after;
  }

  /** The entry took a free slot of the directory or one of a new, cleared cluster; every other slot of the
      directory keeps its bytes, and the rest of the new cluster is blank. */
  ghost predicate OnlyAdded(d: Sectors, e: Sectors, i: Info, p: seq<nat>, q: seq<nat>, lba: nat, k: nat) {
    && OthersStay(d, e, i, p, lba, k) && IsSlot(|d|, i, q, lba, k)
    && (IsSlot(|d|, i, p, lba, k) ==> FreeSlot(d[lba], k))
    && forall x: nat, m: nat :: IsSlot(|d|, i, q, x, m) && !IsSlot(|d|, i, p, x, m) && (x != lba || m != k) ==>
                                  SlotOf(e, x, m) == Zeros(32)
  }

  lemma Added(d: Sectors, m: Sectors, n: Sectors, e: Sectors, i: Info, f: Forest, g: Forest, after: Forest, dir: nat,
              lba: nat, k: nat)
    requires |m| == |d| && dir in f && dir in g && g[dir] == f[dir] && dir in after && Clusters(i, f[dir])
    requires forall x: nat, j: nat :: IsSlot(|d|, i, f[dir], x, j) ==> m[x] == d[x]
    requires (after == g && n == m) || exists c: nat :: GrewBy(m, n, i, g, after, dir, c)
    requires SlotIn(n, i, after[dir], lba, k) && OthersStay(n, e, i, after[dir], lba, k) && |n| == |d|
    ensures OnlyAdded(d, e, i, f[dir], after[dir], lba, k)
  {
    hide Clusters, SameClusters, IsClear, OthersStay;
    SlotSmall(n, i, after[dir], lba, k);
    if after == g && n == m {
      SlotsSince(d, n, e, i, f[dir], lba, k);
      OldSlot(d, n, i, f[dir], lba, k);
    } else {
      var c: nat :| GrewBy(m, n, i, g, after, dir, c);
      NotInDir(f[dir], c);
      SlotsKept(m, n, i, f[dir], {c});
      FewerSlots(n, e, i, f[dir], c, lba, k);
      SlotsSince(d, n, e, i, f[dir], lba, k);
      OldSlot(d, n, i, f[dir], lba, k);
      NewSlots(n, e, i, f[dir], c, lba, k);
    }
  }

  lemma NotInDir(p: seq<nat>, c: nat)
    requires c !in p
    ensures Elems(p) !! {c}
  {
  }

  lemma OldSlot(d: Sectors, n: Sectors, i: Info, p: seq<nat>, lba: nat, k: nat)
    requires |n| == |d| && lba < |n| && FreeSlot(n[lba], k)
    requires forall x: nat, j: nat :: IsSlot(|d|, i, p, x, j) ==> n[x] == d[x]
    ensures IsSlot(|d|, i, p, lba, k) ==> FreeSlot(d[lba], k)
  {
    hide IsSlot;
  }

  /** What stays in the grown directory stays in the directory as it was. */
  lemma FewerSlots(n: Sectors, e: Sectors, i: Info, p: seq<nat>, c: nat, lba: nat, k: nat)
    requires OthersStay(n, e, i, p + [c], lba, k)
    ensures OthersStay(n, e, i, p, lba, k)
  {
    hide SlotOf, FirstSector;
    forall x: nat, j: nat | IsSlot(|n|, i, p, x, j)
      ensures IsSlot(|n|, i, p + [c], x, j)
    {
      var a: nat, s: nat :| SectorIn(i, p, a, s, x);
      assert SectorIn(i, p + [c], a, s, x);
    }
  }

  /** The other slots of the new cluster are blank. */
  lemma NewSlots(n: Sectors, e: Sectors, i: Info, p: seq<nat>, c: nat, lba: nat, k: nat)
    requires OthersStay(n, e, i, p + [c], lba, k) && IsClear(n, i, c)
    ensures forall x: nat, j: nat ::
              IsSlot(|n|, i, p + [c], x, j) && !IsSlot(|n|, i, p, x, j) && (x != lba || j != k) ==>
                SlotOf(e, x, j) == Zeros(32)
  {
    hide FirstSector;
    forall x: nat, j: nat | IsSlot(|n|, i, p + [c], x, j) && !IsSlot(|n|, i, p, x, j) && (x != lba || j != k)
      ensures SlotOf(e, x, j) == Zeros(32)
    {
      var a: nat, s: nat :| SectorIn(i, p + [c], a, s, x);
      assert a < |p| ==> SectorIn(i, p, a, s, x);
      assert ClearSector(n, i, c, s);
      assert SlotOf(n, x, j) == Zeros(32);
    }
  }

  lemma TakenCount(t: Table, i: Info, n: nat)
    requires i.spc >= 1
    ensures Enough(t, i, n) ==> |TakenFor(t, i, n)| == NumClusters(i, n) <= |FreeClusters(t)|
  {
    hide NumClusters, FreeClusters;
  }

  /** Slots are free before and after. */
  lemma SameSlots(d: Sectors, e: Sectors, i: Info, p: seq<nat>)
    requires |e| == |d| && forall lba: nat, k: nat :: IsSlot(|d|, i, p, lba, k) ==> e[lba] == d[lba]
    ensures HasSlot(e, i, p) == HasSlot(d, i, p)
  {
    hide FreeSlot, SectorIn;
    forall lba: nat, k: nat
      ensures SlotIn(e, i, p, lba, k) == SlotIn(d, i, p, lba, k)
    {
      if SlotIn(d, i, p, lba, k) {
        SlotSmall(d, i, p, lba, k);
      } else if SlotIn(e, i, p, lba, k) {
        SlotSmall(e, i, p, lba, k);
      }
    }
  }

  lemma SlotSmall(d: Sectors, i: Info, p: seq<nat>, lba: nat, k: nat)
    requires SlotIn(d, i, p, lba, k)
    ensures IsSlot(|d|, i, p, lba, k)
  {
  }

  lemma RootedDir(d: Sectors, i: Info, f: Forest, dir: nat)
    requires Rooted(d, i, f, dir)
    ensures dir in f
  {
    hide InUse;
  }

  lemma LostParts(d: Sectors, i: Info, f: Forest, p: seq<nat>, dir: nat)
    requires FatOk(d, i, WithLost(f, p)) && dir in f && (p != [] ==> p[0] !in f)
    ensures var g := WithLost(f, p);
      && g == Replaced(f, 0, p) && dir in g && g[dir] == f[dir] && (forall c :: c in f ==> c in g && g[c] == f[c])
      && (p != [] ==> p[0] in g && g[p[0]] == p && p[0] != 0 && p[0] != dir)
  {
    hide Layout, TableOf, SameCopies;
    if p != [] {
      DirClusters(d, i, WithLost(f, p), p[0]);
      ClusterOf(i, p, 0);
    }
  }
}
