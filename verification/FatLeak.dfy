/** What write_file loses on a full FAT32 volume, and two volumes on which it does. */
module FatLeak {
  import opened Bytes
  import opened Collections
  import opened Wrappers
  import opened FatChains
  import opened Fat
  import opened FatVolume
  import opened FatFiles
  import opened FatDirs

  /** A leaked cluster is not free, and it is on none of the chains that files and directories have. */
  lemma LostForGood(d: Sectors, e: Sectors, i: Info, f: Forest, dir: nat, p: seq<nat>, c: nat)
    requires Leaked(d, e, i, f, dir, p) && c in p
    ensures Layout(i, |e|) && c < i.clusters + 2 && TableOf(e, i)[c] != 0
    ensures forall b :: b in f ==> c !in f[b]
  {
    hide Rooted, Layout, TableOf, SameCopies, SameClusters, Distinct, FreeClusters;
    var t, g := TableOf(e, i), WithLost(f, p);
    assert ChainOf(t, g, p[0]) && g[p[0]] == p;
    InTable(t, p);
    if t[c] == 0 {
      FreeOnNoChain(t, p, c);
    }
    forall b | b in f
      ensures c !in f[b]
    {
      assert g[b] == f[b] && Elems(g[b]) !! Elems(g[p[0]]);
      NotIn(f[b], p, c);
    }
  }

  // ---- two clusters, one of them the directory's ----

  const SMALL: Info := Info(1, 1, 2, 1, 3, 2)

  /** Boot sector, two copies of the table, the directory in cluster 2, and cluster 3, which is free. */
  function SmallDisk(dir: Sector): (d: Sectors) {
    [Zeros(512), SmallTable(), SmallTable(), dir, Zeros(512)]
  }

  function SmallTable(): Sector { W32(Zeros(512), 8, EOC) }

  const ONLY_DIR: Forest := map[2 := [2]]

  lemma SmallReads(dir: Sector)
    ensures Layout(SMALL, 5) && TableOf(SmallDisk(dir), SMALL) == [0, 0, EOC, 0]
    ensures FatOk(SmallDisk(dir), SMALL, ONLY_DIR) && FreeClusters([0, 0, EOC, 0]) == [3]
  {
    hide R32, W32;
    var d, t := SmallDisk(dir), [0, 0, EOC, 0];
    assert R32(SmallTable(), 8) == EOC && R32(SmallTable(), 0) == 0 && R32(SmallTable(), 4) == 0
      && R32(SmallTable(), 12) == 0 by {
      SmallEntries();
    }
    assert TableOf(d, SMALL) == t;
    assert LinkOk(t, [2], 0);
    assert FreeFrom(t, 4) == [] && FreeFrom(t, 3) == [3];
  }

  lemma SmallEntries()
    ensures R32(SmallTable(), 8) == EOC && R32(SmallTable(), 0) == 0 && R32(SmallTable(), 4) == 0
      && R32(SmallTable(), 12) == 0
  {
  }

  /** A directory without files: blank, or full of parts of long names. */
  lemma NoFiles(dir: Sector)
    requires forall k: nat :: k < 16 ==> !Live(dir, k)
    ensures Rooted(SmallDisk(dir), SMALL, ONLY_DIR, 2)
  {
    hide Live;
    forall lba: nat, k: nat
      ensures !InUse(SmallDisk(dir), SMALL, ONLY_DIR[2], lba, k)
    {
    }
  }

  /** On the blank directory a file of 513 bytes is one cluster too large: the free cluster is lost. */
  method TooFewClusters(name: seq<Byte>, data: seq<Byte>) returns (v: Volume, err: Option<FsErr>)
    requires |name| == 11 && 512 < |data| <= MAX_FILE
    ensures err == Some(NoSpace) && ClusterLost(v.d)
  {
    hide FatOk, Rooted, Leaked, W32, FreeClusters, Live, HasSlot;
    BlankDir();
    v, err := FailingCreate(Zeros(512), name, data);
  }

  /** In a full directory even one byte is too much: its chain is complete, but no entry can name it. */
  method NoRoomForEntry(name: seq<Byte>, data: seq<Byte>) returns (v: Volume, err: Option<FsErr>)
    requires |name| == 11 && 1 <= |data| <= MAX_FILE
    ensures err == Some(NoSpace) && ClusterLost(v.d)
  {
    hide FatOk, Rooted, Leaked, W32, FreeClusters, Live, HasSlot;
    FullDir();
    v, err := FailingCreate(LONG_NAMES, name, data);
  }

  const LONG_NAMES: Sector := seq(512, _ => 0x0F)

  /** Cluster 3 is in use, but the directory is the only chain, and it has no entry. */
  ghost predicate ClusterLost(d: Sectors) {
    |d| == 5 && Layout(SMALL, 5) && TableOf(d, SMALL)[3] != 0 && Rooted(d, SMALL, ONLY_DIR, 2)
  }

  lemma BlankDir()
    ensures forall k: nat :: k < 16 ==> !Live(Zeros(512), k)
  {
  }

  lemma FullDir()
    ensures (forall k: nat :: k < 16 ==> !Live(LONG_NAMES, k)) && !HasSlot(SmallDisk(LONG_NAMES), SMALL, [2])
  {
    assert NoneIn(LONG_NAMES);
    assert FullSector(SmallDisk(LONG_NAMES), SMALL, 2, 0);
    assert FullCluster(SmallDisk(LONG_NAMES), SMALL, 2);
    NoSlot(SmallDisk(LONG_NAMES), SMALL, [2]);
  }

  lemma NeedsTwo(n: nat)
    requires n >= 1
    ensures NumClusters(SMALL, n) >= 1 && (n > 512 ==> NumClusters(SMALL, n) > 1)
  {
  }

  method FailingCreate(dir: Sector, name: seq<Byte>, data: seq<Byte>) returns (v: Volume, err: Option<FsErr>)
    requires |name| == 11 && 1 <= |data| <= MAX_FILE && forall k: nat :: k < 16 ==> !Live(dir, k)
    requires |data| > 512 || !HasSlot(SmallDisk(dir), SMALL, [2])
    ensures err == Some(NoSpace) && ClusterLost(v.d)
  {
    hide FatOk, Rooted, Leaked, W32, FreeClusters, Live, HasSlot, Saved, NumClusters;
    SmallReads(dir);
    NoFiles(dir);
    NeedsTwo(|data|);
    v := new Volume(SmallDisk(dir), SMALL);
    ghost var d := v.d;
    var lba, k;
    ghost var p, after;
    err, lba, k, p, after := Create(v, 2, name, data, ONLY_DIR);
    assert p == [3];
    LostForGood(d, v.d, SMALL, ONLY_DIR, 2, p, 3);
    StillRooted(d, v.d, SMALL, ONLY_DIR, 2, p);
  }

  lemma StillRooted(d: Sectors, e: Sectors, i: Info, f: Forest, dir: nat, p: seq<nat>)
    requires Leaked(d, e, i, f, dir, p)
    ensures Rooted(e, i, f, dir)
  {
    hide Rooted;
  }
}
