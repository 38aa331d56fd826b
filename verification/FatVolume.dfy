/** The FAT32 driver's operations on clusters and files. */
module FatVolume {
  import opened Bytes
  import opened Collections
  import opened Wrappers
  import opened FatChains
  import opened Fat

  function PutSector(d: Sectors, x: nat, b: Sector): (e: Sectors)
    requires x < |d|
    ensures |e| == |d|
  {
    d[x := b]
  }

  // ---- the invariant ----

  /** The copies of the table agree, and its chains are those of `f`. */
  ghost predicate FatOk(d: Sectors, i: Info, f: Forest) {
    Layout(i, |d|) && SameCopies(d, i) && Forested(TableOf(d, i), f)
  }

  /** The table became `t`; nothing outside the tables changed. */
  ghost predicate TableBecame(d: Sectors, e: Sectors, i: Info, t: Table) {
    && |e| == |d| && Layout(i, |d|) && TableOf(e, i) == t && SameOutside(d, e, i)
    && (SameCopies(d, i) ==> SameCopies(e, i))
  }

  lemma SetBecame(d: Sectors, i: Info, c: nat, v: nat)
    requires Layout(i, |d|) && c < i.clusters + 2 && v < U32_LIMIT
    ensures TableBecame(d, EntrySet(d, i, c, v), i, TableOf(d, i)[c := v])
  {
    hide Layout, SameCopies, SameOutside, EntrySet, TableOf;
    EntrySetReads(d, i, c, v);
  }

  lemma BecameTrans(d: Sectors, e: Sectors, g: Sectors, i: Info, t: Table, u: Table)
    requires TableBecame(d, e, i, t) && TableBecame(e, g, i, u)
    ensures TableBecame(d, g, i, u)
  {
    hide Layout, SameCopies, TableOf;
  }

  lemma BecameSame(d: Sectors, i: Info)
    requires Layout(i, |d|)
    ensures TableBecame(d, d, i, TableOf(d, i))
  {
  }

  class Volume {
    var d: Sectors
    const info: Info

    constructor (d: Sectors, info: Info)
      ensures this.d == d && this.info == info
    {
      this.d := d;
      this.info := info;
    }

    method ReadSector(lba: nat) returns (b: Sector)
      requires lba < |d|
      ensures b == d[lba]
    {
      b := d[lba];
    }

    method WriteSector(lba: nat, b: Sector)
      requires lba < |d|
      modifies this
      ensures d == PutSector(old(d), lba, b)
    {
      d := d[lba := b];
    }

    method ReadFat(c: nat) returns (v: nat)
      requires Layout(info, |d|) && c < info.clusters + 2
      ensures v == TableOf(d, info)[c]
    {
      EntryFits(info, |d|, c);
      var b := ReadSector(info.rsvd + c / 128);
      v := R32(b, 4 * (c % 128));
    }

    /** write_fat: the new sector goes to every copy. */
    method WriteFat(c: nat, v: nat)
      requires Layout(info, |d|) && c < info.clusters + 2 && v < U32_LIMIT
      modifies this
      ensures |d| == |old(d)| && TableBecame(old(d), d, info, TableOf(old(d), info)[c := v])
    {
      hide Layout, SameCopies, SameOutside, TableOf, CopyAt, W32, TableBecame;
      ghost var d0 := d;
      EntryFits(info, |d|, c);
      CopiesFit(info, |d|, c / 128);
      FourCopies(info, |d|);
      var b := ReadSector(info.rsvd + c / 128);
      b := W32(b, 4 * (c % 128), v);
      for f := 0 to info.numFats
        invariant d == Written(d0, info, c / 128, b, f)
      {
        WriteSector(CopyAt(info, f) + c / 128, b);
      }
      SetBecame(d0, info, c, v);
    }

    /** The search of alloc_cluster. */
    method FindFree() returns (r: Option<nat>)
      requires Layout(info, |d|)
      ensures r.Some? ==> IsLowestFree(TableOf(d, info), r.value)
      ensures r.None? ==> NoneFree(TableOf(d, info))
    {
      hide Layout, TableOf;
      var c := 2;
      while c < info.clusters + 2
        invariant 2 <= c <= info.clusters + 2
        invariant forall x: nat :: 2 <= x < c ==> TableOf(d, info)[x] != 0
      {
        var v := ReadFat(c);
        if v == 0 {
          return Some(c);
        }
        c := c + 1;
      }
      return None;
    }

    /** alloc_cluster: the lowest free cluster becomes the end of a chain. */
    method AllocCluster() returns (r: Option<nat>)
      requires Layout(info, |d|)
      modifies this
      ensures r.None? ==> d == old(d) && NoneFree(TableOf(d, info))
      ensures r.Some? ==>
                && IsLowestFree(TableOf(old(d), info), r.value) && |d| == |old(d)|
                && TableBecame(old(d), d, info, TableOf(old(d), info)[r.value := EOC])
    {
      hide Layout, TableOf, TableBecame, NoneFree;
      r := FindFree();
      if r.Some? {
        WriteFat(r.value, EOC);
      }
    }

    /** free_chain: the clusters of the chain, up to two million of them, become free. */
    method FreeChain(clu: nat, ghost p: seq<nat>)
      requires Layout(info, |d|) && Chain(TableOf(d, info), p) && p[0] == clu
      modifies this
      ensures |d| == |old(d)| && forall i :: 0 <= i < |p| ==> p[i] < |TableOf(old(d), info)|
      ensures TableBecame(old(d), d, info, Cleared(TableOf(old(d), info), p, Least(|p|, FREE_LIMIT)))
    {
      assert info.clusters + 2 < 0x0FFF_FFF0;
      hide Layout, TableOf, TableBecame, Chain, Cleared, LinkOk, IsEoc;
      ghost var d0, t := d, TableOf(d, info);
      var cur := clu;
      var n := 0;
      InTable(t, p);
      BecameSame(d0, info);
      ClearedNone(t, p);
      HasHead(t, p);
      while n < FREE_LIMIT
        invariant n < |p| && n <= FREE_LIMIT && cur == p[n] && |d| == |d0|
        invariant TableBecame(d0, d, info, Cleared(t, p, n))
      {
        NextLink(t, p, n);
        LinkIs(d0, d, t, info, p, n);
        var nxt := ReadFat(cur);
        ghost var d1 := d;
        WriteFat(cur, 0);
        ClearedStep(t, p, n);
        BecameTrans(d0, d1, d, info, Cleared(t, p, n), Cleared(t, p, n + 1));
        if IsEoc(nxt) || nxt < 2 {
          return;
        }
        cur := nxt;
        n := n + 1;
      }
    }
  }

  lemma FourCopies(i: Info, n: nat)
    requires Layout(i, n)
    ensures i.numFats <= 4
  {
  }

  lemma HasHead(t: Table, p: seq<nat>)
    requires Chain(t, p)
    ensures |p| > 0
  {
  }

  lemma ClearedNone(t: Table, p: seq<nat>)
    requires forall i :: 0 <= i < |p| ==> p[i] < |t|
    ensures Cleared(t, p, 0) == t
  {
  }

  lemma ClearedStep(t: Table, p: seq<nat>, n: nat)
    requires n < |p| && forall i :: 0 <= i < |p| ==> p[i] < |t|
    ensures Cleared(t, p, n + 1) == Cleared(t, p, n)[p[n] := 0]
  {
  }

  /** What following the chain one step finds: the next cluster, or an end mark exactly at the end. */
  lemma LinkIs(d0: Sectors, d: Sectors, t: Table, i: Info, p: seq<nat>, n: nat)
    requires n < |p| && (forall k :: 0 <= k < |p| ==> p[k] < |t|) && TableBecame(d0, d, i, Cleared(t, p, n))
    requires LinkOk(t, p, n) && Cleared(t, p, n)[p[n]] == t[p[n]] && |t| == i.clusters + 2 < 0x0FFF_FFF0
    requires n + 1 < |p| ==> p[n + 1] >= 2
    ensures p[n] < i.clusters + 2 && Layout(i, |d|) && TableOf(d, i)[p[n]] == t[p[n]]
    ensures IsEoc(t[p[n]]) || t[p[n]] < 2 <==> n + 1 == |p|
    ensures n + 1 < |p| ==> t[p[n]] == p[n + 1]
  {
    hide Layout, TableOf, Cleared;
  }
}
