/** The FAT32 driver: the table in its sectors, kept in several equal copies, and files as the
    clusters of a chain. */
module Fat {
  import opened Bytes
  import opened Wrappers
  import opened FatChains

  type Sector = s: seq<Byte> | |s| == 512 witness seq(512, _ => 0)

  type Sectors = seq<Sector>

  const MAX_FILE: nat := 65536

  /** Iterations after which free_chain gives up. */
  const FREE_LIMIT: nat := 2_000_000

  datatype Info = Info(spc: nat, rsvd: nat, numFats: nat, fatSize: nat, dataStart: nat, clusters: nat)

  /** First sector of FAT copy `f`. */
  function CopyAt(i: Info, f: nat): nat {
    i.rsvd +
    if f == 0 then 0
    else if f == 1 then i.fatSize
    else if f == 2 then 2 * i.fatSize
    else if f == 3 then 3 * i.fatSize
    else 4 * i.fatSize
  }

  /** What mount_at checks, and a table with an entry for every cluster on a large enough device. */
  predicate Layout(i: Info, n: nat) {
    && 1 <= i.spc <= 128 && i.rsvd >= 1 && 1 <= i.numFats <= 4 && i.dataStart == CopyAt(i, i.numFats)
    && i.clusters + 2 <= 128 * i.fatSize && i.clusters + 2 < 0x0FFF_FFF0
    && i.dataStart + i.clusters * i.spc <= n
  }

  // ---- the table ----

  function EntryAt(d: Sectors, i: Info, c: nat): nat
    requires i.rsvd + c / 128 < |d|
  {
    R32(d[i.rsvd + c / 128], 4 * (c % 128))
  }

  lemma EntryFits(i: Info, n: nat, c: nat)
    requires Layout(i, n) && c < i.clusters + 2
    ensures c / 128 < i.fatSize && i.rsvd + c / 128 < i.dataStart <= n
  {
    Product(i.clusters, i.spc);
  }

  lemma Product(a: nat, b: nat)
    ensures a * b >= 0
  {
  }

  function Entries(d: Sectors, i: Info, n: nat): (t: Table)
    requires Layout(i, |d|) && n <= i.clusters + 2
    ensures |t| == n
    ensures forall c: nat :: c < n ==> i.rsvd + c / 128 < |d| && t[c] == EntryAt(d, i, c)
  {
    if n == 0 then []
    else
      EntryFits(i, |d|, n - 1);
      Entries(d, i, n - 1) + [EntryAt(d, i, n - 1)]
  }

  /** The table as the driver reads it, from the first copy. */
  function TableOf(d: Sectors, i: Info): (t: Table)
    requires Layout(i, |d|)
    ensures |t| == i.clusters + 2
  {
    Entries(d, i, i.clusters + 2)
  }

  /** Sector `s` of every copy of the table is the same. */
  ghost predicate SameCopies(d: Sectors, i: Info) {
    forall f: nat, s: nat :: f < i.numFats && s < i.fatSize ==> CopyOk(d, i, f, s)
  }

  predicate CopyOk(d: Sectors, i: Info, f: nat, s: nat) {
    CopyAt(i, f) + s < |d| && i.rsvd + s < |d| && d[CopyAt(i, f) + s] == d[i.rsvd + s]
  }

  lemma CopiesApart(i: Info, f: nat, s: nat, g: nat, u: nat)
    requires f < 4 && g < 4 && s < i.fatSize && u < i.fatSize
    ensures CopyAt(i, f) + s == CopyAt(i, g) + u ==> f == g && s == u
    ensures f < i.numFats <= 4 ==> i.rsvd <= CopyAt(i, f) + s < CopyAt(i, i.numFats)
  {
  }

  /** Everything outside the tables. */
  ghost predicate SameOutside(d: Sectors, e: Sectors, i: Info) {
    |e| == |d| && forall x: nat :: x < |d| && !(i.rsvd <= x < i.dataStart) ==> e[x] == d[x]
  }

  ghost predicate SameData(d: Sectors, e: Sectors, i: Info) {
    |e| == |d| && forall x: nat :: i.dataStart <= x < |d| ==> e[x] == d[x]
  }

  /** Sector `s` written to the first `f` copies. */
  function Written(d: Sectors, i: Info, s: nat, b: Sector, f: nat): (e: Sectors)
    requires f <= 4 && forall g: nat :: g < f ==> CopyAt(i, g) + s < |d|
    ensures |e| == |d|
  {
    if f == 0 then d else Written(d, i, s, b, f - 1)[CopyAt(i, f - 1) + s := b]
  }

  lemma {:induction false} WrittenAt(d: Sectors, i: Info, s: nat, b: Sector, f: nat, x: nat)
    requires f <= 4 && (forall g: nat :: g < f ==> CopyAt(i, g) + s < |d|) && x < |d|
    ensures Written(d, i, s, b, f)[x] == if InCopies(i, f, s, x) then b else d[x]
  {
    hide CopyAt;
    if f > 0 {
      WrittenAt(d, i, s, b, f - 1, x);
      assert x == CopyAt(i, f - 1) + s ==> InCopies(i, f, s, x);
    }
  }

  predicate InCopies(i: Info, f: nat, s: nat, x: nat) {
    exists g: nat :: g < f && x == CopyAt(i, g) + s
  }

  lemma CopiesFit(i: Info, n: nat, s: nat)
    requires Layout(i, n) && s < i.fatSize
    ensures forall g: nat :: g < i.numFats ==> CopyAt(i, g) + s < i.dataStart <= n
    ensures CopyAt(i, 0) == i.rsvd
  {
    Product(i.clusters, i.spc);
    forall g: nat | g < i.numFats
      ensures CopyAt(i, g) + s < i.dataStart
    {
      CopiesApart(i, g, s, g, s);
    }
  }

  /** The disk after entry `c` was set in all copies. */
  function EntrySet(d: Sectors, i: Info, c: nat, v: nat): (e: Sectors)
    requires Layout(i, |d|) && c < i.clusters + 2 && v < U32_LIMIT
    ensures |e| == |d|
  {
    EntryFits(i, |d|, c);
    CopiesFit(i, |d|, c / 128);
    Written(d, i, c / 128, W32(d[i.rsvd + c / 128], 4 * (c % 128), v), i.numFats)
  }

  lemma EntrySetAt(d: Sectors, i: Info, c: nat, v: nat, x: nat)
    requires Layout(i, |d|) && c < i.clusters + 2 && v < U32_LIMIT && x < |d|
    ensures i.rsvd + c / 128 < |d|
    ensures EntrySet(d, i, c, v)[x] ==
            if InCopies(i, i.numFats, c / 128, x) then W32(d[i.rsvd + c / 128], 4 * (c % 128), v) else d[x]
  {
    hide W32, InCopies, CopyAt;
    EntryFits(i, |d|, c);
    CopiesFit(i, |d|, c / 128);
    WrittenAt(d, i, c / 128, W32(d[i.rsvd + c / 128], 4 * (c % 128), v), i.numFats, x);
  }

  /** Setting an entry changes that entry, keeps the copies equal and touches nothing else. */
  lemma EntrySetReads(d: Sectors, i: Info, c: nat, v: nat)
    requires Layout(i, |d|) && c < i.clusters + 2 && v < U32_LIMIT
    ensures TableOf(EntrySet(d, i, c, v), i) == TableOf(d, i)[c := v]
    ensures SameOutside(d, EntrySet(d, i, c, v), i)
    ensures SameCopies(d, i) ==> SameCopies(EntrySet(d, i, c, v), i)
  {
    var e := EntrySet(d, i, c, v);
    assert i.numFats <= 4;
    hide W32, Layout, InCopies, EntrySet, CopyAt, R32;
    forall x: nat | x < i.clusters + 2
      ensures TableOf(e, i)[x] == if x == c then v else TableOf(d, i)[x]
    {
      EntrySetEntry(d, i, c, v, x);
    }
    forall x: nat | x < |d| && !(i.rsvd <= x < i.dataStart)
      ensures e[x] == d[x]
    {
      EntrySetAt(d, i, c, v, x);
      OutsideCopies(i, |d|, c / 128, x);
      EntryFits(i, |d|, c);
    }
    if SameCopies(d, i) {
      forall f: nat, s: nat | f < i.numFats && s < i.fatSize
        ensures CopyOk(e, i, f, s)
      {
        EntrySetCopy(d, i, c, v, f, s);
      }
    }
  }

  lemma OutsideCopies(i: Info, n: nat, s: nat, x: nat)
    requires Layout(i, n) && s < i.fatSize && !(i.rsvd <= x < i.dataStart)
    ensures !InCopies(i, i.numFats, s, x)
  {
    forall g: nat | g < i.numFats
      ensures x != CopyAt(i, g) + s
    {
      CopiesApart(i, g, s, g, s);
    }
  }

  lemma EntrySetEntry(d: Sectors, i: Info, c: nat, v: nat, x: nat)
    requires Layout(i, |d|) && c < i.clusters + 2 && v < U32_LIMIT && x < i.clusters + 2
    ensures i.rsvd + x / 128 < |d| && EntryAt(EntrySet(d, i, c, v), i, x) == if x == c then v else EntryAt(d, i, x)
  {
    EntryFits(i, |d|, x);
    EntryFits(i, |d|, c);
    EntrySetAt(d, i, c, v, i.rsvd + x / 128);
    FirstCopy(i, c / 128, x / 128);
    hide Layout, InCopies, EntrySet, CopyAt, R32;
    var b := d[i.rsvd + c / 128];
    if x / 128 == c / 128 && x != c {
      assert x % 128 != c % 128;
      OtherField(b, 4 * (c % 128), v, 4 * (x % 128));
    }
  }

  lemma OtherField(b: Sector, o: nat, v: nat, k: nat)
    requires o + 4 <= 512 && k + 4 <= 512 && v < U32_LIMIT && (k + 4 <= o || o + 4 <= k)
    ensures R32(W32(b, o, v), k) == R32(b, k)
  {
    hide W32;
  }

  lemma FirstCopy(i: Info, s: nat, u: nat)
    requires 1 <= i.numFats <= 4 && s < i.fatSize && u < i.fatSize
    ensures InCopies(i, i.numFats, s, i.rsvd + u) <==> u == s
  {
    if u == s {
      assert i.rsvd + u == CopyAt(i, 0) + s;
    }
    forall g: nat | g < i.numFats && i.rsvd + u == CopyAt(i, g) + s
      ensures u == s
    {
      CopiesApart(i, g, s, 0, u);
    }
  }

  lemma EntrySetCopy(d: Sectors, i: Info, c: nat, v: nat, f: nat, s: nat)
    requires Layout(i, |d|) && c < i.clusters + 2 && v < U32_LIMIT && SameCopies(d, i) && f < i.numFats && s < i.fatSize
    ensures CopyOk(EntrySet(d, i, c, v), i, f, s)
  {
    assert CopyOk(d, i, f, s);
    EntryFits(i, |d|, c);
    EntrySetAt(d, i, c, v, CopyAt(i, f) + s);
    EntrySetAt(d, i, c, v, i.rsvd + s);
    FirstCopy(i, c / 128, s);
    AnyCopy(i, c / 128, f, s);
    hide Layout, InCopies, EntrySet, CopyAt, W32;
  }

  lemma AnyCopy(i: Info, s: nat, f: nat, u: nat)
    requires f < i.numFats <= 4 && s < i.fatSize && u < i.fatSize
    ensures InCopies(i, i.numFats, s, CopyAt(i, f) + u) <==> u == s
  {
    forall g: nat | g < i.numFats && CopyAt(i, f) + u == CopyAt(i, g) + s
      ensures u == s
    {
      CopiesApart(i, g, s, f, u);
    }
  }

  // ---- clusters ----

  /** first_sector */
  function FirstSector(i: Info, c: nat): (s: nat)
    requires c >= 2
  {
    Product(c - 2, i.spc);
    i.dataStart + (c - 2) * i.spc
  }

  lemma ClusterIn(i: Info, n: nat, c: nat, s: nat)
    requires Layout(i, n) && 2 <= c < i.clusters + 2 && s < i.spc
    ensures i.dataStart <= FirstSector(i, c) + s < n
  {
    LessProduct(c - 2, i.clusters, i.spc);
  }

  lemma LessProduct(a: nat, b: nat, k: nat)
    requires a < b
    ensures 0 <= a * k && a * k + k <= b * k
  {
    assert b * k - a * k == (b - a) * k;
    assert (b - a) * k >= k by {
      Product(b - a - 1, k);
      assert (b - a) * k == (b - a - 1) * k + k;
    }
    Product(a, k);
  }

  /** Different clusters have no sector in common. */
  lemma ClustersApart(i: Info, b: nat, c: nat, s: nat, u: nat)
    requires b >= 2 && c >= 2 && s < i.spc && u < i.spc
    ensures FirstSector(i, b) + s == FirstSector(i, c) + u ==> b == c && s == u
  {
    if b < c {
      LessProduct(b - 2, c - 2, i.spc);
    } else if c < b {
      LessProduct(c - 2, b - 2, i.spc);
    }
  }
}
