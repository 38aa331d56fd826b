/** Files on FAT32: a chain is allocated and linked, the old one freed, the data written through the
    chain and read back through it. */
module FatFiles {
  import opened Bytes
  import opened Collections
  import opened Wrappers
  import opened FatChains
  import opened Fat
  import opened FatVolume

  // ---- contents ----

  /** Bytes in a cluster. */
  function Clu(i: Info): nat { 512 * i.spc }

  /** Offset in the file of its cluster `k`. */
  function Start(i: Info, k: nat): (o: nat)
    ensures o == k * Clu(i)
  {
    Product(k, Clu(i));
    k * Clu(i)
  }

  function NumClusters(i: Info, n: nat): nat
    requires i.spc >= 1
  {
    (n + Clu(i) - 1) / Clu(i)
  }

  /** The first `n` bytes of cluster `c` are the data from `off` on. */
  ghost predicate ClusterHolds(d: Sectors, i: Info, c: nat, data: seq<Byte>, off: nat, n: nat) {
    && c >= 2 && FirstSector(i, c) + i.spc <= |d| && off + n <= |data|
    && forall s: nat, o: nat :: s < i.spc && o < 512 && 512 * s + o < n ==> ByteHolds(d, i, c, data, off, s, o)
  }

  predicate ByteHolds(d: Sectors, i: Info, c: nat, data: seq<Byte>, off: nat, s: nat, o: nat)
    requires c >= 2
  {
    && o < 512 && FirstSector(i, c) + s < |d| && off + 512 * s + o < |data|
    && d[FirstSector(i, c) + s][o] == data[off + 512 * s + o]
  }

  /** Cluster `k` of the chain holds its part of the data. */
  ghost predicate PartHolds(d: Sectors, i: Info, p: seq<nat>, data: seq<Byte>, k: nat) {
    k < |p| && (Start(i, k) < |data|
      ==> ClusterHolds(d, i, p[k], data, Start(i, k), Least(|data| - Start(i, k), Clu(i))))
  }

  /** The chain holds the data. */
  ghost predicate FileHolds(d: Sectors, i: Info, p: seq<nat>, data: seq<Byte>) {
    |data| <= Start(i, |p|) && forall k: nat :: k < |p| ==> PartHolds(d, i, p, data, k)
  }

  /** Only sectors of cluster `c` may differ. */
  ghost predicate OnlyCluster(d: Sectors, e: Sectors, i: Info, c: nat)
    requires c >= 2
  {
    |e| == |d| && forall x: nat :: x < |d| && !(FirstSector(i, c) <= x < FirstSector(i, c) + i.spc) ==> e[x] == d[x]
  }

  ghost predicate SameCluster(d: Sectors, e: Sectors, i: Info, c: nat) {
    c >= 2 && |e| == |d| && FirstSector(i, c) + i.spc <= |d|
    && forall s: nat :: s < i.spc ==> SameSector(d, e, i, c, s)
  }

  predicate SameSector(d: Sectors, e: Sectors, i: Info, c: nat, s: nat)
    requires c >= 2
  {
    FirstSector(i, c) + s < |d| && |e| == |d| && e[FirstSector(i, c) + s] == d[FirstSector(i, c) + s]
  }

  /** Every cluster outside `s`, and everything in front of the clusters, is as before. */
  ghost predicate SameElse(d: Sectors, e: Sectors, i: Info, s: set<nat>) {
    && |e| == |d|
    && (forall x: nat :: x < i.dataStart && x < |d| ==> e[x] == d[x])
    && SameClusters(d, e, i, s)
  }

  ghost predicate SameClusters(d: Sectors, e: Sectors, i: Info, s: set<nat>) {
    |e| == |d| && forall c: nat :: 2 <= c < i.clusters + 2 && c !in s ==> SameCluster(d, e, i, c)
  }

  lemma WholeCluster(i: Info, n: nat, c: nat)
    requires Layout(i, n) && 2 <= c < i.clusters + 2
    ensures i.dataStart <= FirstSector(i, c) && FirstSector(i, c) + i.spc <= n
  {
    ClusterIn(i, n, c, i.spc - 1);
    ClusterIn(i, n, c, 0);
  }

  lemma ElseRefl(d: Sectors, i: Info, s: set<nat>)
    requires Layout(i, |d|)
    ensures SameElse(d, d, i, s)
  {
    hide Layout, FirstSector;
    forall c: nat | 2 <= c < i.clusters + 2 && c !in s
      ensures SameCluster(d, d, i, c)
    {
      WholeCluster(i, |d|, c);
    }
  }

  lemma ElseTrans(d: Sectors, e: Sectors, g: Sectors, i: Info, s: set<nat>)
    requires SameElse(d, e, i, s) && SameElse(e, g, i, s)
    ensures SameElse(d, g, i, s)
  {
    hide SameClusters;
    ClustersTrans(d, e, g, i, s);
  }

  lemma ClustersTrans(d: Sectors, e: Sectors, g: Sectors, i: Info, s: set<nat>)
    requires SameClusters(d, e, i, s) && SameClusters(e, g, i, s)
    ensures SameClusters(d, g, i, s)
  {
    hide FirstSector;
    forall c: nat | 2 <= c < i.clusters + 2 && c !in s
      ensures SameCluster(d, g, i, c)
    {
      assert SameCluster(d, e, i, c) && SameCluster(e, g, i, c);
      forall s: nat | s < i.spc
        ensures SameSector(d, g, i, c, s)
      {
        assert SameSector(d, e, i, c, s) && SameSector(e, g, i, c, s);
      }
    }
  }

  lemma ClustersRefl(d: Sectors, i: Info, s: set<nat>)
    requires Layout(i, |d|)
    ensures SameClusters(d, d, i, s)
  {
    ElseRefl(d, i, s);
  }

  /** A change to the table changes no cluster. */
  lemma TableClusters(d: Sectors, e: Sectors, i: Info, t: Table)
    requires TableBecame(d, e, i, t)
    ensures SameClusters(d, e, i, {})
  {
    hide FirstSector, TableOf;
    forall c: nat | 2 <= c < i.clusters + 2
      ensures SameCluster(d, e, i, c)
    {
      WholeCluster(i, |d|, c);
      forall s: nat | s < i.spc
        ensures SameSector(d, e, i, c, s)
      {
        ClusterIn(i, |d|, c, s);
      }
    }
  }

  lemma ElseCluster(d: Sectors, e: Sectors, i: Info, c: nat, s: set<nat>)
    requires Layout(i, |d|) && 2 <= c < i.clusters + 2 && c in s && OnlyCluster(d, e, i, c)
    ensures SameElse(d, e, i, s)
  {
    WholeCluster(i, |d|, c);
    hide FirstSector;
    forall b: nat | 2 <= b < i.clusters + 2 && b !in s
      ensures SameCluster(d, e, i, b)
    {
      WholeCluster(i, |d|, b);
      forall u: nat | u < i.spc
        ensures SameSector(d, e, i, b, u)
      {
        SectorApart(i, b, c, u);
      }
    }
  }

  lemma SectorApart(i: Info, b: nat, c: nat, u: nat)
    requires b >= 2 && c >= 2 && b != c && u < i.spc
    ensures !(FirstSector(i, c) <= FirstSector(i, b) + u < FirstSector(i, c) + i.spc)
  {
    if FirstSector(i, c) <= FirstSector(i, b) + u < FirstSector(i, c) + i.spc {
      ClustersApart(i, b, c, u, FirstSector(i, b) + u - FirstSector(i, c));
    }
  }

  /** Clusters that are not written keep the tables and the other files. */
  lemma ElseKeepsTable(d: Sectors, e: Sectors, i: Info, s: set<nat>)
    requires Layout(i, |d|) && SameElse(d, e, i, s)
    ensures TableOf(e, i) == TableOf(d, i) && (SameCopies(d, i) ==> SameCopies(e, i))
  {
    forall c: nat | c < i.clusters + 2
      ensures TableOf(e, i)[c] == TableOf(d, i)[c]
    {
      EntryFits(i, |d|, c);
    }
    if SameCopies(d, i) {
      forall f: nat, u: nat | f < i.numFats && u < i.fatSize
        ensures CopyOk(e, i, f, u)
      {
        assert CopyOk(d, i, f, u);
        CopiesFit(i, |d|, u);
        assert CopyAt(i, f) + u < i.dataStart && CopyAt(i, 0) + u < i.dataStart;
      }
    }
  }

  lemma HoldsKept(d: Sectors, e: Sectors, i: Info, c: nat, data: seq<Byte>, off: nat, n: nat)
    requires ClusterHolds(d, i, c, data, off, n) && SameCluster(d, e, i, c)
    ensures ClusterHolds(e, i, c, data, off, n)
  {
    hide FirstSector;
    forall s: nat, o: nat | s < i.spc && o < 512 && 512 * s + o < n
      ensures ByteHolds(e, i, c, data, off, s, o)
    {
      assert ByteHolds(d, i, c, data, off, s, o) && SameSector(d, e, i, c, s);
    }
  }

  /** A file none of whose clusters was written keeps its contents. */
  lemma FileKept(d: Sectors, e: Sectors, i: Info, p: seq<nat>, data: seq<Byte>)
    requires FileHolds(d, i, p, data) && forall k: nat :: k < |p| ==> SameCluster(d, e, i, p[k])
    ensures FileHolds(e, i, p, data)
  {
    hide FirstSector, Start, ClusterHolds, SameCluster;
    forall k: nat | k < |p|
      ensures PartHolds(e, i, p, data, k)
    {
      assert PartHolds(d, i, p, data, k) && SameCluster(d, e, i, p[k]);
      if Start(i, k) < |data| {
        HoldsKept(d, e, i, p[k], data, Start(i, k), Least(|data| - Start(i, k), Clu(i)));
      }
    }
  }

  // ---- writing and reading one cluster ----

  function Padded(data: seq<Byte>, off: nat, n: nat): (b: Sector)
    requires n <= 512 && off + n <= |data|
    ensures forall o: nat :: o < n ==> b[o] == data[off + o]
  {
    data[off..off + n] + Zeros(512 - n)
  }

  /** The inner loop of write_file. */
  method WriteCluster(v: Volume, c: nat, data: seq<Byte>, off: nat, chunk: nat)
    requires Layout(v.info, |v.d|) && 2 <= c < v.info.clusters + 2 && chunk <= Clu(v.info) && off + chunk <= |data|
    modifies v
    ensures |v.d| == |old(v.d)| && OnlyCluster(old(v.d), v.d, v.info, c)
    ensures ClusterHolds(v.d, v.info, c, data, off, chunk)
  {
    var i := v.info;
    ghost var d0 := v.d;
    WholeCluster(i, |v.d|, c);
    hide Layout, FirstSector, PutSector, Padded;
    var s, co := 0, 0;
    while co < chunk
      invariant co == Least(512 * s, chunk) && s <= i.spc && |v.d| == |d0| && OnlyCluster(d0, v.d, i, c)
      invariant forall u: nat, o: nat :: u < s && o < 512 && 512 * u + o < chunk ==>
                  ByteHolds(v.d, i, c, data, off, u, o)
      decreases chunk - co
    {
      var n := Least(chunk - co, 512);
      var x := FirstSector(i, c) + s;
      ghost var d1 := v.d;
      v.WriteSector(x, Padded(data, off + co, n));
      SectorStep(d0, d1, v.d, i, c, data, off, chunk, s, x, n);
      s, co := s + 1, co + n;
    }
  }

  lemma SectorStep(d0: Sectors, d: Sectors, e: Sectors, i: Info, c: nat, data: seq<Byte>, off: nat, chunk: nat,
                   s: nat, x: nat, n: nat)
    requires c >= 2 && FirstSector(i, c) + i.spc <= |d| == |d0| && x == FirstSector(i, c) + s
      && 512 * s < chunk <= Clu(i)
    requires off + chunk <= |data| && n == Least(chunk - 512 * s, 512) && OnlyCluster(d0, d, i, c)
    requires s < i.spc && e == PutSector(d, x, Padded(data, off + 512 * s, n))
    requires forall u: nat, o: nat :: u < s && o < 512 && 512 * u + o < chunk ==> ByteHolds(d, i, c, data, off, u, o)
    ensures OnlyCluster(d0, e, i, c)
    ensures forall u: nat, o: nat :: u < s + 1 && o < 512 && 512 * u + o < chunk ==> ByteHolds(e, i, c, data, off, u, o)
  {
    hide FirstSector, Padded;
    forall u: nat, o: nat | u < s + 1 && o < 512 && 512 * u + o < chunk
      ensures ByteHolds(e, i, c, data, off, u, o)
    {
      if u < s {
        assert ByteHolds(d, i, c, data, off, u, o);
      }
    }
  }

  // ---- a chain of clusters ----

  /** Clusters of the volume, each once. */
  ghost predicate Clusters(i: Info, p: seq<nat>) {
    Distinct(p) && forall k: nat :: k < |p| ==> 2 <= p[k] < i.clusters + 2
  }

  lemma ChainClusters(d: Sectors, i: Info, p: seq<nat>)
    requires Layout(i, |d|) && Chain(TableOf(d, i), p)
    ensures Clusters(i, p) && |p| <= i.clusters
  {
    InTable(TableOf(d, i), p);
    ChainShort(TableOf(d, i), p);
  }

  /** The data-writing loop of write_file. */
  method WriteChain(v: Volume, p: seq<nat>, data: seq<Byte>)
    requires Layout(v.info, |v.d|) && Clusters(v.info, p) && |data| <= Start(v.info, |p|)
    modifies v
    ensures |v.d| == |old(v.d)| && SameElse(old(v.d), v.d, v.info, Elems(p)) && FileHolds(v.d, v.info, p, data)
  {
    var i := v.info;
    ghost var d0 := v.d;
    ElseRefl(d0, i, Elems(p));
    StartZero(i);
    CluPositive(i, |v.d|);
    hide Layout, SameElse, Start, Clu, Distinct, PartHolds, OnlyCluster, ClusterHolds;
    var off, ci := 0, 0;
    while off < |data|
      invariant ci <= |p| && off == Least(Start(i, ci), |data|) && |v.d| == |d0| && SameElse(d0, v.d, i, Elems(p))
      invariant forall k: nat :: k < ci ==> PartHolds(v.d, i, p, data, k)
      decreases |data| - off
    {
      StartNext(i, ci, |p|);
      var chunk := Least(|data| - off, Clu(i));
      ghost var d1 := v.d;
      WriteCluster(v, p[ci], data, off, chunk);
      PartStep(d0, d1, v.d, i, p, data, ci);
      off, ci := off + chunk, ci + 1;
    }
    AllParts(v.d, i, p, data, ci);
  }

  lemma StartZero(i: Info)
    ensures Start(i, 0) == 0
  {
  }

  lemma CluPositive(i: Info, n: nat)
    requires Layout(i, n)
    ensures 512 <= Clu(i) <= 65536
  {
  }

  lemma StartNext(i: Info, k: nat, n: nat)
    ensures Start(i, k + 1) == Start(i, k) + Clu(i)
    ensures k <= n ==> Start(i, k) <= Start(i, n)
    ensures k < n ==> Start(i, k + 1) <= Start(i, n)
  {
    if k < n {
      LessProduct(k, n, Clu(i));
    }
  }

  lemma PartStep(d0: Sectors, d: Sectors, e: Sectors, i: Info, p: seq<nat>, data: seq<Byte>, ci: nat)
    requires Layout(i, |d|) && Clusters(i, p) && ci < |p| && Start(i, ci) < |data| && SameElse(d0, d, i, Elems(p))
    requires OnlyCluster(d, e, i, p[ci])
    requires ClusterHolds(e, i, p[ci], data, Start(i, ci), Least(|data| - Start(i, ci), Clu(i)))
    requires forall k: nat :: k < ci ==> PartHolds(d, i, p, data, k)
    ensures SameElse(d0, e, i, Elems(p)) && forall k: nat :: k < ci + 1 ==> PartHolds(e, i, p, data, k)
  {
    hide Layout, Start, Clu, ClusterHolds, FirstSector, SameCluster, SameElse, OnlyCluster;
    assert p[ci] in p;
    ElseCluster(d, e, i, p[ci], Elems(p));
    ElseTrans(d0, d, e, i, Elems(p));
    ElseCluster(d, e, i, p[ci], {p[ci]});
    forall k: nat | k < ci + 1
      ensures PartHolds(e, i, p, data, k)
    {
      if k < ci {
        assert PartHolds(d, i, p, data, k);
        ElseAt(d, e, i, {p[ci]}, p[k]);
        if Start(i, k) < |data| {
          HoldsKept(d, e, i, p[k], data, Start(i, k), Least(|data| - Start(i, k), Clu(i)));
        }
      }
    }
  }

  lemma ElseAt(d: Sectors, e: Sectors, i: Info, s: set<nat>, c: nat)
    requires SameElse(d, e, i, s) && 2 <= c < i.clusters + 2 && c !in s
    ensures SameCluster(d, e, i, c)
  {
  }

  lemma AllParts(d: Sectors, i: Info, p: seq<nat>, data: seq<Byte>, ci: nat)
    requires |data| <= Start(i, |p|) && ci <= |p| && |data| <= Start(i, ci)
    requires forall k: nat :: k < ci ==> PartHolds(d, i, p, data, k)
    ensures FileHolds(d, i, p, data)
  {
    hide Start, ClusterHolds;
    forall k: nat | k < |p|
      ensures PartHolds(d, i, p, data, k)
    {
      if ci <= k {
        StartNext(i, ci, k);
      }
    }
  }

  /** The inner loop of read_file. */
  method ReadCluster(v: Volume, c: nat, out: array<Byte>, written: nat, chunk: nat, ghost data: seq<Byte>, ghost n: nat)
    requires Layout(v.info, |v.d|) && 2 <= c < v.info.clusters + 2 && chunk <= n && chunk <= Clu(v.info)
      && written + chunk <= out.Length
    requires ClusterHolds(v.d, v.info, c, data, written, n)
    modifies out
    ensures forall k: nat :: written <= k < written + chunk ==> out[k] == data[k]
    ensures forall k: nat :: k < out.Length && !(written <= k < written + chunk) ==> out[k] == old(out[k])
  {
    var i := v.info;
    WholeCluster(i, |v.d|, c);
    hide Layout, FirstSector;
    var s, off := 0, 0;
    while off < chunk
      invariant off == Least(512 * s, chunk) && s <= i.spc
      invariant forall k: nat :: written <= k < written + off ==> out[k] == data[k]
      invariant forall k: nat :: k < out.Length && !(written <= k < written + off) ==> out[k] == old(out[k])
      decreases chunk - off
    {
      var b := v.ReadSector(FirstSector(i, c) + s);
      var n1 := Least(chunk - off, 512);
      for o := 0 to n1
        invariant forall k: nat :: written <= k < written + off + o ==> out[k] == data[k]
        invariant forall k: nat :: k < out.Length && !(written <= k < written + off + o) ==> out[k] == old(out[k])
      {
        assert ByteHolds(v.d, i, c, data, written, s, o);
        out[written + off + o] := b[o];
      }
      s, off := s + 1, off + n1;
    }
  }

  /** read_file, from the directory entry on: the contents, as far as they fit the buffer. */
  method ReadFile(v: Volume, first: nat, size: nat, out: array<Byte>, ghost p: seq<nat>, ghost data: seq<Byte>)
    returns (r: nat)
    requires Layout(v.info, |v.d|) && size == |data|
    requires first != 0 ==> Chain(TableOf(v.d, v.info), p) && p[0] == first && FileHolds(v.d, v.info, p, data)
    modifies out
    ensures r == if first == 0 then 0 else Least(|data|, out.Length)
    ensures out[..r] == data[..r] && out[r..] == old(out[r..])
  {
    var i := v.info;
    var want := Least(size, out.Length);
    if want == 0 || first == 0 {
      return 0;
    }
    ChainClusters(v.d, i, p);
    CluPositive(i, |v.d|);
    StartZero(i);
    hide Layout, Start, Clu, Chain, ClusterHolds, TableOf, IsEoc, Distinct, Clusters, LinkOk;
    var clu, written, guard := first, 0, 0;
    while written < want
      invariant written <= want
        && (written < want ==> guard < |p| <= i.clusters && clu == p[guard] && written == Start(i, guard))
      invariant forall k: nat :: k < written ==> out[k] == data[k]
      invariant forall k: nat :: written <= k < out.Length ==> out[k] == old(out[k])
      decreases want - written
    {
      guard := guard + 1;
      if guard > i.clusters {
        break;
      }
      ghost var k := guard - 1;
      PartRead(v.d, i, p, data, k);
      StartNext(i, k, |p|);
      var chunk := Least(want - written, Clu(i));
      ReadCluster(v, clu, out, written, chunk, data, Least(|data| - Start(i, k), Clu(i)));
      written := written + chunk;
      NextCluster(v.d, i, p, k, |data|);
      var nxt := v.ReadFat(clu);
      if IsEoc(nxt) || nxt < 2 {
        break;
      }
      clu := nxt;
    }
    return written;
  }

  lemma PartRead(d: Sectors, i: Info, p: seq<nat>, data: seq<Byte>, k: nat)
    requires FileHolds(d, i, p, data) && k < |p| && Start(i, k) < |data| && Clusters(i, p)
    ensures 2 <= p[k] < i.clusters + 2
    ensures ClusterHolds(d, i, p[k], data, Start(i, k), Least(|data| - Start(i, k), Clu(i)))
  {
    assert PartHolds(d, i, p, data, k);
  }

  /** The table leads to the next cluster, and stops only where the chain, and so the data, ends. */
  lemma NextCluster(d: Sectors, i: Info, p: seq<nat>, k: nat, n: nat)
    requires Layout(i, |d|) && Chain(TableOf(d, i), p) && k < |p| && n <= Start(i, |p|)
    ensures p[k] < i.clusters + 2
    ensures var nxt := TableOf(d, i)[p[k]];
      && (k + 1 < |p| ==> nxt == p[k + 1] && nxt >= 2 && !IsEoc(nxt))
      && (k + 1 == |p| ==> n <= Start(i, k) + Clu(i))
  {
    var t := TableOf(d, i);
    SmallTable(i, |d|);
    hide Layout, TableOf, Start, Clu, IsEoc, Distinct;
    assert LinkOk(t, p, k);
    if k + 1 < |p| {
      assert LinkOk(t, p, k + 1);
      NoEndMark(p[k + 1]);
    } else {
      StartNext(i, k, |p|);
    }
  }

  lemma SmallTable(i: Info, n: nat)
    requires Layout(i, n)
    ensures i.clusters + 2 < 0x0FFF_FFF0
  {
  }

  lemma NoEndMark(v: nat)
    requires v < 0x0FFF_FFF0
    ensures !IsEoc(v)
  {
  }

  // ---- allocating a chain ----

  /** The table `t` has the forest `f` and the chain `p`, whose last entry is a fresh end mark. */
  ghost predicate Growing(t: Table, f: Forest, p: seq<nat>) {
    && p != [] && p[0] !in f && Forested(t, f[p[0] := p])
    && p[|p| - 1] < |t| && t[p[|p| - 1]] == EOC
  }

  lemma GrowStart(t: Table, f: Forest, c: nat)
    requires Forested(t, f) && IsLowestFree(t, c)
    ensures Growing(t[c := EOC], f, [c])
  {
    NewChain(t, f, c);
  }

  lemma GrowStep(t: Table, f: Forest, p: seq<nat>, c: nat)
    requires Growing(t, f, p) && IsLowestFree(t, c)
    ensures p[|p| - 1] < |t| && p[|p| - 1] != c
    ensures Growing(t[c := EOC][p[|p| - 1] := c], f, p + [c])
  {
    var a, last, g := p[0], p[|p| - 1], f[p[0] := p];
    NewChain(t, g, c);
    var t1, g1 := t[c := EOC], g[c := [c]];
    Linked(t1, g1, a, c);
    assert (g1 - {c})[a := p + [c]] == f[a := p + [c]];
    assert (p + [c])[0] == a;
  }

  lemma LowestBounds(t: Table, c: nat)
    requires IsLowestFree(t, c)
    ensures 2 <= c < |t|
  {
  }

  /** The chain got the first clusters of `free`, and the rest is still free. */
  ghost predicate Taken(t: Table, free: seq<nat>, p: seq<nat>) {
    |p| <= |free| && p == free[..|p|] && FreeClusters(t) == free[|p|..]
  }

  lemma TakenFirst(t: Table, c: nat)
    requires IsLowestFree(t, c)
    ensures Taken(t[c := EOC], FreeClusters(t), [c])
  {
    FirstFree(t, 2, c, EOC);
  }

  lemma TakenNext(t: Table, free: seq<nat>, p: seq<nat>, c: nat, last: nat)
    requires Taken(t, free, p) && IsLowestFree(t, c) && last < |t| && t[last] != 0 && last != c
    ensures Taken(t[c := EOC][last := c], free, p + [c])
  {
    FirstFree(t, 2, c, EOC);
    FreeSame(t[c := EOC], 2, last, c);
    assert free[|p|..][0] == c;
  }

  /** The allocation loop of write_file: the `need` lowest free clusters, linked into one chain. When
      there are fewer, all of them stay allocated, as a chain that no entry names. */
  method BuildChain(v: Volume, need: nat, ghost f: Forest) returns (ok: bool, chain: seq<nat>)
    requires FatOk(v.d, v.info, f) && need >= 1
    modifies v
    ensures |v.d| == |old(v.d)| && SameClusters(old(v.d), v.d, v.info, {})
    ensures Layout(v.info, |v.d|) && SameCopies(v.d, v.info)
    ensures chain == [] ==> Forested(TableOf(v.d, v.info), f)
    ensures chain != [] ==> Growing(TableOf(v.d, v.info), f, chain)
    ensures Taken(TableOf(v.d, v.info), FreeClusters(TableOf(old(v.d), v.info)), chain)
    ensures if ok then |chain| == need else |chain| < need && FreeClusters(TableOf(v.d, v.info)) == []
  {
    var i := v.info;
    hide FatOk, Layout, SameCopies, Forested, TableOf, SameClusters, Growing, IsLowestFree, NoneFree, TableBecame,
         FreeClusters, Taken;
    ghost var d0 := v.d;
    ghost var free := FreeClusters(TableOf(d0, i));
    OkParts(d0, i, f);
    ClustersRefl(d0, i, {});
    NoneFreeIs(TableOf(d0, i));
    TakenNone(TableOf(d0, i));
    var r := v.AllocCluster();
    if r.None? {
      return false, [];
    }
    chain := [r.value];
    LowestBounds(TableOf(d0, i), r.value);
    BecameFacts(d0, v.d, i, TableOf(d0, i)[r.value := EOC]);
    GrowStart(TableOf(d0, i), f, r.value);
    TakenFirst(TableOf(d0, i), r.value);
    while |chain| < need
      invariant 1 <= |chain| <= need && |v.d| == |d0| && Layout(i, |v.d|) && SameCopies(v.d, i)
      invariant Growing(TableOf(v.d, i), f, chain) && SameClusters(d0, v.d, i, {})
      invariant Taken(TableOf(v.d, i), free, chain)
    {
      ghost var d1 := v.d;
      NoneFreeIs(TableOf(d1, i));
      var more := v.AllocCluster();
      if more.None? {
        return false, chain;
      }
      chain := ExtendChain(v, chain, more.value, d0, d1, f, free);
    }
    LastIsEnd(v.d, i, f, chain);
    ghost var d2 := v.d;
    v.WriteFat(chain[|chain| - 1], EOC);
    BecameFacts(d2, v.d, i, TableOf(d2, i));
    ClustersTrans(d0, d2, v.d, i, {});
    return true, chain;
  }

  lemma TakenNone(t: Table)
    ensures Taken(t, FreeClusters(t), [])
  {
  }

  lemma OkParts(d: Sectors, i: Info, f: Forest)
    requires FatOk(d, i, f)
    ensures Layout(i, |d|) && SameCopies(d, i) && Forested(TableOf(d, i), f)
  {
  }

  lemma BecameFacts(d: Sectors, e: Sectors, i: Info, t: Table)
    requires TableBecame(d, e, i, t)
    ensures |e| == |d| && Layout(i, |e|) && TableOf(e, i) == t && SameClusters(d, e, i, {})
    ensures SameCopies(d, i) ==> SameCopies(e, i)
  {
    TableClusters(d, e, i, t);
  }

  /** Writing the end mark again changes nothing. */
  lemma LastIsEnd(d: Sectors, i: Info, f: Forest, p: seq<nat>)
    requires Layout(i, |d|) && Growing(TableOf(d, i), f, p)
    ensures p[|p| - 1] < i.clusters + 2 && TableOf(d, i)[p[|p| - 1] := EOC] == TableOf(d, i)
  {
  }

  /** The new cluster, already an end mark, is linked behind the last one. */
  method ExtendChain(v: Volume, chain: seq<nat>, c: nat, ghost d0: Sectors, ghost d1: Sectors, ghost f: Forest,
                     ghost free: seq<nat>)
    returns (longer: seq<nat>)
    requires |v.d| == |d1| == |d0| && Layout(v.info, |v.d|) && SameCopies(d1, v.info)
      && SameClusters(d0, d1, v.info, {})
    requires Growing(TableOf(d1, v.info), f, chain) && IsLowestFree(TableOf(d1, v.info), c)
      && Taken(TableOf(d1, v.info), free, chain)
    requires TableBecame(d1, v.d, v.info, TableOf(d1, v.info)[c := EOC])
    modifies v
    ensures longer == chain + [c] && |v.d| == |old(v.d)| && Layout(v.info, |v.d|) && SameCopies(v.d, v.info)
    ensures Growing(TableOf(v.d, v.info), f, longer) && SameClusters(d0, v.d, v.info, {})
      && Taken(TableOf(v.d, v.info), free, longer)
  {
    var i := v.info;
    hide Layout, SameCopies, Forested, TableOf, SameClusters, Growing, IsLowestFree, TableBecame, Taken;
    ghost var t, d2 := TableOf(d1, i), v.d;
    LowestBounds(t, c);
    ChainLast(d1, i, f, chain);
    GrowStep(t, f, chain, c);
    TakenNext(t, free, chain, c, chain[|chain| - 1]);
    BecameFacts(d1, d2, i, t[c := EOC]);
    v.WriteFat(chain[|chain| - 1], c);
    BecameFacts(d2, v.d, i, t[c := EOC][chain[|chain| - 1] := c]);
    ClustersTrans(d0, d1, d2, i, {});
    ClustersTrans(d0, d2, v.d, i, {});
    return chain + [c];
  }

  lemma ChainLast(d: Sectors, i: Info, f: Forest, p: seq<nat>)
    requires Layout(i, |d|) && Growing(TableOf(d, i), f, p)
    ensures p != [] && p[|p| - 1] < i.clusters + 2 < U32_LIMIT && TableOf(d, i)[p[|p| - 1]] != 0
  {
  }

  // ---- write_file ----

  /** The forest once the file's old chain is gone and the new one is there. */
  function Replaced(f: Forest, was: nat, p: seq<nat>): Forest {
    var g := if was == 0 then f else f - {was};
    if p == [] then g else g[p[0] := p]
  }

  /** The forest with a chain that no entry names. */
  function WithLost(f: Forest, p: seq<nat>): Forest {
    if p == [] then f else f[p[0] := p]
  }

  lemma BuiltIsOk(d: Sectors, i: Info, f: Forest, p: seq<nat>)
    requires Layout(i, |d|) && SameCopies(d, i)
    requires if p == [] then Forested(TableOf(d, i), f) else Growing(TableOf(d, i), f, p)
    ensures FatOk(d, i, WithLost(f, p)) && (p != [] ==> p[0] !in f)
  {
  }

  /** Freeing the old chain, now that the new one is in place. */
  method FreeOld(v: Volume, was: nat, ghost f: Forest, ghost p: seq<nat>)
    requires FatOk(v.d, v.info, WithLost(f, p)) && (p != [] ==> p[0] !in f)
      && (was != 0 ==> was in f && |f[was]| <= FREE_LIMIT)
    modifies v
    ensures |v.d| == |old(v.d)| && FatOk(v.d, v.info, Replaced(f, was, p)) && SameClusters(old(v.d), v.d, v.info, {})
    ensures was == 0 ==> v.d == old(v.d)
  {
    var i := v.info;
    hide FatOk, Layout, SameCopies, Forested, TableOf, SameClusters, TableBecame, Cleared, Chain;
    ghost var d, g := v.d, WithLost(f, p);
    OkParts(d, i, g);
    ClustersRefl(d, i, {});
    if was != 0 {
      OldChain(TableOf(d, i), g, was);
      ChainFreed(TableOf(d, i), g, was);
      v.FreeChain(was, g[was]);
      BecameFacts(d, v.d, i, Cleared(TableOf(d, i), g[was], |g[was]|));
      assert g - {was} == Replaced(f, was, p);
      PartsOk(v.d, i, Replaced(f, was, p));
    } else {
      assert g == Replaced(f, was, p);
    }
  }

  lemma OldChain(t: Table, f: Forest, c: nat)
    requires Forested(t, f) && c in f
    ensures Chain(t, f[c]) && f[c] != [] && f[c][0] == c
  {
    assert ChainOf(t, f, c);
  }

  lemma PartsOk(d: Sectors, i: Info, f: Forest)
    requires Layout(i, |d|) && SameCopies(d, i) && Forested(TableOf(d, i), f)
    ensures FatOk(d, i, f)
  {
  }

  /** What the new chain is: clusters of the volume that belong to no other chain. */
  lemma NewChainFacts(d: Sectors, i: Info, f: Forest, p: seq<nat>)
    requires FatOk(d, i, WithLost(f, p)) && p != [] && p[0] !in f
    ensures Clusters(i, p) && forall c :: c in f ==> Elems(f[c]) !! Elems(p)
  {
    var g := WithLost(f, p);
    hide TableOf, Layout, Chain;
    assert ChainOf(TableOf(d, i), g, p[0]);
    ChainClusters(d, i, p);
    forall c | c in f
      ensures Elems(f[c]) !! Elems(p)
    {
      assert g[c] == f[c] && g[p[0]] == p;
      assert Elems(g[c]) !! Elems(g[p[0]]);
    }
  }

  lemma EnoughClusters(i: Info, n: nat)
    requires i.spc >= 1
    ensures n <= Start(i, NumClusters(i, n))
    ensures NumClusters(i, n) == 0 <==> n == 0
  {
    var c := Clu(i);
    var q := (n + c - 1) / c;
    Euclid(n + c - 1, c);
    assert q * c > n - 1;
    assert q == 0 ==> q * c == 0;
    if n == 0 {
      SmallQuotient(c - 1, c);
    }
  }

  /** The driver's array of 128 clusters is long enough for every file it accepts. */
  lemma ChainArrayFits(i: Info, n: nat)
    requires i.spc >= 1 && n <= MAX_FILE
    ensures NumClusters(i, n) <= 128
  {
    var c := Clu(i);
    var q := (n + c - 1) / c;
    Euclid(n + c - 1, c);
    assert 129 * c >= 65536 + c;
    QuotientBound(q, c, 128);
  }

  lemma QuotientBound(q: nat, c: nat, m: nat)
    requires q * c < (m + 1) * c
    ensures q <= m
  {
    if q > m {
      LessProduct(m, q, c);
    }
  }

  lemma Euclid(a: nat, b: nat)
    requires b > 0
    ensures a / b * b <= a < a / b * b + b
  {
    assert a == a / b * b + a % b;
  }

  lemma SmallQuotient(a: nat, b: nat)
    requires a < b
    ensures a / b == 0
  {
  }

  /** The clusters write_file takes for `n` bytes: the lowest free ones, all of them if they are too few. */
  function TakenFor(t: Table, i: Info, n: nat): (p: seq<nat>)
    requires i.spc >= 1
  {
    FreeClusters(t)[..Least(NumClusters(i, n), |FreeClusters(t)|)]
  }

  /** The free clusters are enough for `n` bytes. */
  predicate Enough(t: Table, i: Info, n: nat)
    requires i.spc >= 1
  {
    NumClusters(i, n) <= |FreeClusters(t)|
  }

  /** The first half of write_file: a chain for the data, and the old chain freed. It fails exactly if
      there are fewer free clusters than it takes; then nothing is freed, and all of them stay
      allocated, as the chain `p`. */
  method TakeChain(v: Volume, was: nat, n: nat, ghost f: Forest) returns (ok: bool, p: seq<nat>)
    requires FatOk(v.d, v.info, f) && (was != 0 ==> was in f && |f[was]| <= FREE_LIMIT) && n <= MAX_FILE
    modifies v
    ensures |v.d| == |old(v.d)| && |p| <= 128 && SameClusters(old(v.d), v.d, v.info, {}) && (p != [] ==> p[0] !in f)
    ensures var t := TableOf(old(v.d), v.info);
            v.info.spc >= 1 && ok == Enough(t, v.info, n) && p == TakenFor(t, v.info, n)
    ensures !ok ==> FatOk(v.d, v.info, WithLost(f, p)) && FreeClusters(TableOf(v.d, v.info)) == []
    ensures ok && was == 0 ==> FreeClusters(TableOf(v.d, v.info)) == FreeClusters(TableOf(old(v.d), v.info))[|p|..]
    ensures ok ==>
              && FatOk(v.d, v.info, Replaced(f, was, p)) && (p == [] <==> n == 0) && n <= Start(v.info, |p|)
              && (p != [] ==> Clusters(v.info, p) && |p| == NumClusters(v.info, n))
              && forall c :: c in f ==> Elems(f[c]) !! Elems(p)
  {
    var i := v.info;
    hide FatOk, Layout, SameCopies, Forested, TableOf, SameClusters, Growing, FreeClusters, Elems, Clusters, Start,
         NumClusters, Clu;
    p := [];
    ghost var d0 := v.d;
    OkParts(d0, i, f);
    SpcPositive(i, |d0|);
    EnoughClusters(i, n);
    ChainArrayFits(i, n);
    var need := NumClusters(i, n);
    ClustersRefl(d0, i, {});
    if need > 0 {
      ok, p := BuildChain(v, need, f);
      BuiltIsOk(v.d, i, f, p);
      if !ok {
        return false, p;
      }
      NewChainFacts(v.d, i, f, p);
    } else {
      BuiltIsOk(v.d, i, f, p);
      NoElements();
    }
    ghost var d1 := v.d;
    FreeOld(v, was, f, p);
    ClustersTrans(d0, d1, v.d, i, {});
    return true, p;
  }

  lemma NoElements()
    ensures Elems([]) == {}
  {
  }

  /** write_file, without the directory entry: the new chain holds the data, the old chain is freed,
      and no other chain and no other cluster changes. The disk is full exactly if there are fewer
      free clusters than the data takes; then nothing is freed or written, but all free clusters end
      up allocated, as the chain `chain` that belongs to nothing. */
  method WriteFile(v: Volume, was: nat, data: seq<Byte>, ghost f: Forest)
    returns (r: Result<nat, FsErr>, ghost chain: seq<nat>)
    requires FatOk(v.d, v.info, f) && (was != 0 ==> was in f && |f[was]| <= FREE_LIMIT)
    modifies v
    ensures |v.d| == |old(v.d)| && |chain| <= 128
    ensures var t := TableOf(old(v.d), v.info);
      && v.info.spc >= 1
      && (r.Err? <==> |data| > MAX_FILE || !Enough(t, v.info, |data|))
      && (|data| <= MAX_FILE ==> chain == TakenFor(t, v.info, |data|))
    ensures r.Err? ==> r.error == if |data| > MAX_FILE then TooBig else NoSpace
    ensures r == Err(TooBig) ==> v.d == old(v.d)
    ensures r == Err(NoSpace) ==>
              && FatOk(v.d, v.info, WithLost(f, chain)) && (chain != [] ==> chain[0] !in f)
              && SameClusters(old(v.d), v.d, v.info, {}) && FreeClusters(TableOf(v.d, v.info)) == []
    ensures r.Ok? ==>
              && FatOk(v.d, v.info, Replaced(f, was, chain)) && r.value == (if chain == [] then 0 else chain[0])
              && (chain == [] <==> data == []) && FileHolds(v.d, v.info, chain, data)
              && SameClusters(old(v.d), v.d, v.info, Elems(chain))
              && forall c :: c in f ==> Elems(f[c]) !! Elems(chain)
  {
    var i := v.info;
    hide FatOk, Layout, SameCopies, Forested, TableOf, SameClusters, FileHolds, Elems, Clusters, Start, NumClusters,
         FreeClusters, TakenFor, Enough;
    ghost var d0 := v.d;
    OkParts(d0, i, f);
    SpcPositive(i, |d0|);
    if |data| > MAX_FILE {
      return Err(TooBig), [];
    }
    var ok, p := TakeChain(v, was, |data|, f);
    if !ok {
      return Err(NoSpace), p;
    }
    ghost var d2 := v.d;
    OkParts(d2, i, Replaced(f, was, p));
    SpcPositive(i, |d2|);
    NoClusters(i, d2, data);
    if p != [] {
      WriteChain(v, p, data);
      WrittenOk(d2, v.d, i, Replaced(f, was, p), Elems(p));
      ClustersMore(d0, d2, v.d, i, Elems(p));
    }
    return Ok(if p == [] then 0 else p[0]), p;
  }

  lemma SpcPositive(i: Info, n: nat)
    requires Layout(i, n)
    ensures i.spc >= 1
  {
  }

  lemma NoClusters(i: Info, d: Sectors, data: seq<Byte>)
    ensures data == [] ==> FileHolds(d, i, [], data)
    ensures Elems([]) == {}
  {
  }

  lemma WrittenOk(d: Sectors, e: Sectors, i: Info, f: Forest, s: set<nat>)
    requires FatOk(d, i, f) && |e| == |d| && SameElse(d, e, i, s)
    ensures FatOk(e, i, f) && SameClusters(d, e, i, s)
  {
    hide TableOf, Forested, SameClusters;
    ElseKeepsTable(d, e, i, s);
  }

  lemma ClustersMore(d: Sectors, e: Sectors, g: Sectors, i: Info, s: set<nat>)
    requires SameClusters(d, e, i, {}) && SameClusters(e, g, i, s)
    ensures SameClusters(d, g, i, s)
  {
    hide SameCluster;
    ClustersTrans(d, e, g, i, s);
  }

  /** A rewrite of one file leaves the contents of every other file, whatever they are. */
  lemma OtherFilesKept(d: Sectors, e: Sectors, i: Info, f: Forest, p: seq<nat>, c: nat, data: seq<Byte>)
    requires FatOk(d, i, f) && c in f && SameClusters(d, e, i, Elems(p)) && Elems(f[c]) !! Elems(p)
    requires FileHolds(d, i, f[c], data)
    ensures FileHolds(e, i, f[c], data)
  {
    hide TableOf, SameCluster, Layout, FileHolds, SameCopies, Chain;
    OldChain(TableOf(d, i), f, c);
    ChainClusters(d, i, f[c]);
    forall k: nat | k < |f[c]|
      ensures SameCluster(d, e, i, f[c][k])
    {
      assert f[c][k] in f[c];
    }
    FileKept(d, e, i, f[c], data);
  }

  // ---- find_free_slot ----

  /** A directory slot that may be used: its first byte marks the end of the entries or a deletion. */
  predicate FreeSlot(b: Sector, k: nat) {
    k < 16 && (b[32 * k] == 0 || b[32 * k] == 0xE5)
  }

  /** The slot found lies in a cluster of the directory. */
  ghost predicate SlotIn(d: Sectors, i: Info, p: seq<nat>, lba: nat, k: nat) {
    lba < |d| && FreeSlot(d[lba], k) && exists n: nat, s: nat :: SectorIn(i, p, n, s, lba)
  }

  /** Some cluster of the directory has a free slot. */
  ghost predicate HasSlot(d: Sectors, i: Info, p: seq<nat>) {
    exists lba: nat, k: nat :: SlotIn(d, i, p, lba, k)
  }

  /** No slot of cluster `c` is free. */
  ghost predicate FullCluster(d: Sectors, i: Info, c: nat) {
    c >= 2 && forall s: nat :: s < i.spc ==> FullSector(d, i, c, s)
  }

  ghost predicate FullSector(d: Sectors, i: Info, c: nat, s: nat)
    requires c >= 2
  {
    FirstSector(i, c) + s < |d| && NoneIn(d[FirstSector(i, c) + s])
  }

  ghost predicate NoneIn(b: Sector) {
    forall k: nat :: !FreeSlot(b, k)
  }

  lemma NoSlot(d: Sectors, i: Info, p: seq<nat>)
    requires forall n: nat :: n < |p| ==> FullCluster(d, i, p[n])
    ensures !HasSlot(d, i, p)
  {
    hide FreeSlot, FirstSector;
    forall lba: nat, n: nat, s: nat | SectorIn(i, p, n, s, lba) && lba < |d|
      ensures NoneIn(d[lba])
    {
      assert FullCluster(d, i, p[n]);
      assert FullSector(d, i, p[n], s);
    }
  }

  predicate SectorIn(i: Info, p: seq<nat>, n: nat, s: nat, lba: nat) {
    n < |p| && p[n] >= 2 && s < i.spc && lba == FirstSector(i, p[n]) + s
  }

  /** The first free slot of one cluster. */
  method SlotInCluster(v: Volume, c: nat) returns (r: Option<(nat, nat)>, ghost s: nat)
    requires Layout(v.info, |v.d|) && 2 <= c < v.info.clusters + 2
    ensures r.Some? ==>
              s < v.info.spc && r.value.0 == FirstSector(v.info, c) + s < |v.d| && FreeSlot(v.d[r.value.0], r.value.1)
    ensures r.None? ==> FullCluster(v.d, v.info, c)
  {
    var i := v.info;
    WholeCluster(i, |v.d|, c);
    hide Layout, FirstSector;
    var u := 0;
    s := 0;
    while u < i.spc
      invariant forall w: nat :: w < u ==> FullSector(v.d, i, c, w)
    {
      var b := v.ReadSector(FirstSector(i, c) + u);
      for k := 0 to 16
        invariant forall j: nat :: j < k ==> !FreeSlot(b, j)
      {
        if b[32 * k] == 0 || b[32 * k] == 0xE5 {
          s := u;
          return Some((FirstSector(i, c) + u, k)), s;
        }
      }
      u := u + 1;
    }
    return None, s;
  }

  /** The walk of find_free_slot: a free slot, or the last cluster of the directory. */
  method WalkSlots(v: Volume, dir: nat, ghost p: seq<nat>) returns (r: Option<(nat, nat)>, last: nat)
    requires Layout(v.info, |v.d|) && Chain(TableOf(v.d, v.info), p) && p[0] == dir
    ensures r.Some? ==> SlotIn(v.d, v.info, p, r.value.0, r.value.1)
    ensures r.None? ==> p != [] && last == p[|p| - 1] && !HasSlot(v.d, v.info, p)
  {
    var i := v.info;
    ChainClusters(v.d, i, p);
    HasHead(TableOf(v.d, i), p);
    hide Layout, Chain, TableOf, IsEoc, Distinct, LinkOk, FreeSlot, FullCluster, HasSlot;
    var clu, guard := dir, 0;
    while guard < i.clusters + 2
      invariant guard < |p| <= i.clusters && clu == p[guard]
      invariant forall n: nat :: n < guard ==> FullCluster(v.d, i, p[n])
      decreases i.clusters + 2 - guard
    {
      ghost var s;
      r, s := SlotInCluster(v, clu);
      if r.Some? {
        assert SectorIn(i, p, guard, s, r.value.0);
        return r, 0;
      }
      NextCluster(v.d, i, p, guard, 0);
      LastStops(v.d, i, p, guard);
      var nxt := v.ReadFat(clu);
      if IsEoc(nxt) {
        NoSlot(v.d, i, p);
        return None, clu;
      }
      clu, guard := nxt, guard + 1;
    }
    assert false;
  }

  lemma LastStops(d: Sectors, i: Info, p: seq<nat>, k: nat)
    requires Layout(i, |d|) && Chain(TableOf(d, i), p) && k < |p|
    ensures p[k] < i.clusters + 2 && (k + 1 == |p| ==> IsEoc(TableOf(d, i)[p[k]]))
  {
    assert LinkOk(TableOf(d, i), p, k);
  }

  predicate ClearSector(d: Sectors, i: Info, c: nat, s: nat)
    requires c >= 2
  {
    FirstSector(i, c) + s < |d| && d[FirstSector(i, c) + s] == Zeros(512)
  }

  ghost predicate IsClear(d: Sectors, i: Info, c: nat) {
    c >= 2 && forall s: nat :: s < i.spc ==> ClearSector(d, i, c, s)
  }

  lemma ClearStep(d: Sectors, e: Sectors, i: Info, c: nat, s: nat)
    requires c >= 2 && FirstSector(i, c) + s < |d| && forall u: nat :: u < s ==> ClearSector(d, i, c, u)
    requires e == PutSector(d, FirstSector(i, c) + s, Zeros(512))
    ensures forall u: nat :: u < s + 1 ==> ClearSector(e, i, c, u)
  {
    hide FirstSector;
    forall u: nat | u < s + 1
      ensures ClearSector(e, i, c, u)
    {
      assert u < s ==> ClearSector(d, i, c, u);
    }
  }

  /** Zero sectors over a whole cluster. */
  method ClearCluster(v: Volume, c: nat)
    requires Layout(v.info, |v.d|) && 2 <= c < v.info.clusters + 2
    modifies v
    ensures |v.d| == |old(v.d)| && OnlyCluster(old(v.d), v.d, v.info, c)
    ensures IsClear(v.d, v.info, c)
  {
    var i := v.info;
    ghost var d0 := v.d;
    WholeCluster(i, |v.d|, c);
    hide FirstSector;
    for s := 0 to i.spc
      invariant |v.d| == |d0| && OnlyCluster(d0, v.d, i, c)
      invariant forall u: nat :: u < s ==> ClearSector(v.d, i, c, u)
    {
      ClearStep(v.d, PutSector(v.d, FirstSector(i, c) + s, Zeros(512)), i, c, s);
      v.WriteSector(FirstSector(i, c) + s, Zeros(512));
    }
  }

  lemma DirLinked(t: Table, f: Forest, dir: nat, c: nat)
    requires Forested(t, f) && dir in f && IsLowestFree(t, c)
    ensures f[dir] != [] && f[dir][|f[dir]| - 1] < |t| && c !in f && c !in f[dir]
    ensures Forested(t[c := EOC][f[dir][|f[dir]| - 1] := c], f[dir := f[dir] + [c]])
  {
    NewChain(t, f, c);
    OldChain(t, f, dir);
    FreeOnNoChain(t, f[dir], c);
    Linked(t[c := EOC], f[c := [c]], dir, c);
    assert (f[c := [c]] - {c})[dir := f[dir] + [c]] == f[dir := f[dir] + [c]];
  }

  /** find_free_slot: a free slot in a cluster of the directory, which grows by the lowest free cluster,
      cleared, exactly if it has none; it fails exactly if then no cluster is free. Every other chain
      and cluster stays. */
  method FindFreeSlot(v: Volume, dir: nat, ghost f: Forest) returns (r: Result<(nat, nat), FsErr>, ghost after: Forest)
    requires FatOk(v.d, v.info, f) && dir in f
    modifies v
    ensures |v.d| == |old(v.d)| && FatOk(v.d, v.info, after)
    ensures r.Err? <==> !HasSlot(old(v.d), v.info, f[dir]) && FreeClusters(TableOf(old(v.d), v.info)) == []
    ensures r.Err? ==> r == Err(NoSpace) && v.d == old(v.d) && after == f
    ensures r.Ok? ==> dir in after && SlotIn(v.d, v.info, after[dir], r.value.0, r.value.1)
    ensures HasSlot(old(v.d), v.info, f[dir]) ==> after == f && v.d == old(v.d)
    ensures r.Ok? && !HasSlot(old(v.d), v.info, f[dir]) ==>
              GrewBy(old(v.d), v.d, v.info, f, after, dir, FreeClusters(TableOf(old(v.d), v.info))[0])
  {
    var i := v.info;
    hide FatOk, Layout, SameCopies, Forested, TableOf, SameClusters, NoneFree, TableBecame, Chain, IsLowestFree,
         SlotIn, IsClear, FreeClusters, GrewBy;
    ghost var d0, p := v.d, f[dir];
    OkParts(d0, i, f);
    NoneFreeIs(TableOf(d0, i));
    OldChain(TableOf(d0, i), f, dir);
    var slot, last := WalkSlots(v, dir, p);
    if slot.Some? {
      return Ok(slot.value), f;
    }
    var got := v.AllocCluster();
    if got.None? {
      return Err(NoSpace), f;
    }
    var nc := got.value;
    ghost var d1 := v.d;
    ghost var t := TableOf(d0, i);
    LowestBounds(t, nc);
    LowestIsFirst(t, nc);
    DirLinked(t, f, dir, nc);
    BecameFacts(d0, d1, i, t[nc := EOC]);
    TableWidth(i, |d0|);
    v.WriteFat(last, nc);
    ghost var d2 := v.d;
    after := f[dir := p + [nc]];
    BecameFacts(d1, d2, i, t[nc := EOC][last := nc]);
    PartsOk(d2, i, after);
    ClustersTrans(d0, d1, d2, i, {});
    ClearCluster(v, nc);
    ElseCluster(d2, v.d, i, nc, {nc});
    WrittenOk(d2, v.d, i, after, {nc});
    ClustersMore(d0, d2, v.d, i, {nc});
    GrewThere(d0, v.d, i, f, after, dir, nc);
    BlankSlot(v.d, i, p, nc);
    return Ok((FirstSector(i, nc), 0)), after;
  }

  lemma LowestIsFirst(t: Table, c: nat)
    requires IsLowestFree(t, c)
    ensures FreeClusters(t) != [] && FreeClusters(t)[0] == c
  {
    FirstFree(t, 2, c, EOC);
  }

  lemma GrewThere(d: Sectors, e: Sectors, i: Info, f: Forest, after: Forest, dir: nat, c: nat)
    requires dir in f && c !in f && c !in f[dir] && after == f[dir := f[dir] + [c]] && SameClusters(d, e, i, {c})
      && IsClear(e, i, c)
    ensures GrewBy(d, e, i, f, after, dir, c)
  {
    hide SameClusters, IsClear;
  }

  lemma TableWidth(i: Info, n: nat)
    requires Layout(i, n)
    ensures i.clusters + 2 < U32_LIMIT
  {
  }

  /** The directory got the cluster `c`, which was on no chain; all other clusters are as before. */
  ghost predicate GrewBy(d: Sectors, e: Sectors, i: Info, f: Forest, after: Forest, dir: nat, c: nat) {
    dir in f && c !in f && c !in f[dir] && after == f[dir := f[dir] + [c]] && SameClusters(d, e, i, {c})
      && IsClear(e, i, c)
  }

  lemma BlankSlot(d: Sectors, i: Info, p: seq<nat>, c: nat)
    requires Layout(i, |d|) && IsClear(d, i, c)
    ensures SlotIn(d, i, p + [c], FirstSector(i, c), 0)
  {
    hide FirstSector;
    assert ClearSector(d, i, c, 0);
    assert SectorIn(i, p + [c], |p|, 0, FirstSector(i, c));
  }
}
