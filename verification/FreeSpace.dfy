/** The free blocks of a volume in ascending order: what lowest-first allocation hands out, and
    whether it is enough for a file. */
module FreeSpace {
  import opened Collections
  import opened Wrappers
  import opened Disk
  import opened Extents
  import opened Volume
  import opened Files

  /** The numbers from `lo` up to `hi` that are not in `used`, in order. */
  function FreeFrom(used: set<nat>, lo: nat, hi: nat): (f: seq<nat>)
    decreases hi - lo
  {
    if lo >= hi then []
    else if lo in used then FreeFrom(used, lo + 1, hi)
    else [lo] + FreeFrom(used, lo + 1, hi)
  }

  /** The free blocks of a volume of `total` blocks. */
  function FreeList(used: set<nat>, total: nat): (f: seq<nat>) { FreeFrom(used, 0, total) }

  ghost predicate Increasing(f: seq<nat>) {
    forall i, j :: 0 <= i < j < |f| ==> f[i] < f[j]
  }

  ghost predicate AllFree(f: seq<nat>, used: set<nat>, lo: nat, hi: nat) {
    forall i :: 0 <= i < |f| ==> lo <= f[i] < hi && f[i] !in used
  }

  lemma {:induction false} FreeFromOrder(used: set<nat>, lo: nat, hi: nat)
    ensures Increasing(FreeFrom(used, lo, hi)) && AllFree(FreeFrom(used, lo, hi), used, lo, hi)
    decreases hi - lo
  {
    if lo < hi {
      FreeFromOrder(used, lo + 1, hi);
      if lo !in used {
        var g := FreeFrom(used, lo + 1, hi);
        assert FreeFrom(used, lo, hi) == [lo] + g;
      }
    }
  }

  lemma {:induction false} FreeFromHas(used: set<nat>, lo: nat, hi: nat, x: nat)
    requires lo <= x < hi && x !in used
    ensures x in FreeFrom(used, lo, hi)
    decreases hi - lo
  {
    if lo != x {
      FreeFromHas(used, lo + 1, hi, x);
    }
  }

  /** There are as many free blocks as blocks that are not used. */
  lemma FreeCount(used: set<nat>, total: nat)
    requires used <= Range(0, total)
    ensures |FreeList(used, total)| + |used| == total
  {
    var f := FreeList(used, total);
    FreeFromOrder(used, 0, total);
    IncreasingDistinct(f);
    DistinctSize(f);
    RangeSize(0, total);
    forall x: nat | x < total && x !in used
      ensures x in Elems(f)
    {
      FreeFromHas(used, 0, total, x);
    }
    assert Elems(f) + used == Range(0, total);
    assert |Elems(f) + used| == |Elems(f)| + |used|;
  }

  lemma IncreasingDistinct(f: seq<nat>)
    requires Increasing(f)
    ensures Distinct(f)
  {
  }

  /** Taking the first free block leaves the others. */
  lemma {:induction false} FirstTaken(used: set<nat>, lo: nat, hi: nat)
    requires FreeFrom(used, lo, hi) != []
    ensures var f := FreeFrom(used, lo, hi); FreeFrom(used + {f[0]}, lo, hi) == f[1..]
    decreases hi - lo
  {
    if lo in used {
      FirstTaken(used, lo + 1, hi);
    } else {
      SameAbove(used, used + {lo}, lo + 1, hi);
    }
  }

  lemma {:induction false} SameAbove(used: set<nat>, now: set<nat>, lo: nat, hi: nat)
    requires forall x: nat :: lo <= x < hi ==> (x in used <==> x in now)
    ensures FreeFrom(used, lo, hi) == FreeFrom(now, lo, hi)
    decreases hi - lo
  {
    if lo < hi {
      SameAbove(used, now, lo + 1, hi);
    }
  }

  // ---- allocation follows the list ----

  /** The blocks `p` are the first of the list. */
  ghost predicate InLine(f: seq<nat>, p: seq<nat>) {
    |p| <= |f| && p == f[..|p|]
  }

  lemma Fronts(f: seq<nat>, p: seq<nat>)
    requires InLine(f, p)
    ensures forall i :: 0 <= i < |p| ==> f[i] in Elems(p)
  {
    forall i | 0 <= i < |p|
      ensures f[i] in Elems(p)
    {
      assert p[i] == f[i];
    }
  }

  lemma StillFree(f: seq<nat>, p: seq<nat>, used: set<nat>, total: nat)
    requires f == FreeList(used, total) && InLine(f, p) && |p| < |f|
    ensures f[|p|] < total && f[|p|] !in used + Elems(p)
  {
    FreeFromOrder(used, 0, total);
    IncreasingDistinct(f);
    NotYet(f, |p|);
  }

  /** Once the first blocks of the list are taken, the next one is the lowest free block. */
  lemma NextInLine(f: seq<nat>, p: seq<nat>, used: set<nat>, total: nat, blk: nat)
    requires f == FreeList(used, total) && InLine(f, p)
    requires blk < total && blk !in used + Elems(p) && forall x: nat :: x < blk ==> x in used + Elems(p)
    ensures |p| < |f| && f[|p|] == blk && InLine(f, p + [blk])
  {
    FreeFromOrder(used, 0, total);
    FreeFromHas(used, 0, total, blk);
    Fronts(f, p);
    var i :| 0 <= i < |f| && f[i] == blk;
    StillFree(f, p, used, total);
  }

  /** When no block is free any more, the whole list was taken. */
  lemma LineIsOver(f: seq<nat>, p: seq<nat>, used: set<nat>, total: nat)
    requires f == FreeList(used, total) && InLine(f, p) && forall x: nat :: x < total ==> x in used + Elems(p)
    ensures p == f
  {
    if |p| < |f| {
      StillFree(f, p, used, total);
    } else {
      assert f[..|f|] == f;
    }
  }

  /** The lowest free block of the volume is the next in line. */
  lemma LowestIsNext(d1: Disk, d: Disk, geo: Geometry, f: seq<nat>, p: seq<nat>, blk: nat)
    requires f == FreeList(UsedSet(d1, geo), geo.total) && InLine(f, p)
      && UsedSet(d, geo) == UsedSet(d1, geo) + Elems(p)
    requires IsLowest(d, geo, blk)
    ensures |p| < |f| && f[|p|] == blk && InLine(f, p + [blk])
  {
    hide Used, Elems, FreeList, InLine;
    assert blk !in UsedSet(d, geo);
    forall x: nat | x < blk
      ensures x in UsedSet(d1, geo) + Elems(p)
    {
      assert x in UsedSet(d, geo);
    }
    NextInLine(f, p, UsedSet(d1, geo), geo.total, blk);
  }

  lemma FullIsOver(d1: Disk, d: Disk, geo: Geometry, f: seq<nat>, p: seq<nat>)
    requires f == FreeList(UsedSet(d1, geo), geo.total) && InLine(f, p)
      && UsedSet(d, geo) == UsedSet(d1, geo) + Elems(p)
    requires Full(d, geo)
    ensures p == f
  {
    hide Used, Elems, FreeList, InLine;
    forall x: nat | x < geo.total
      ensures x in UsedSet(d1, geo) + Elems(p)
    {
      assert x in UsedSet(d, geo);
    }
    LineIsOver(f, p, UsedSet(d1, geo), geo.total);
  }

  // ---- whether a file can be written ----

  /** What writing `n` blocks to an empty file answers when these blocks are free: the blocks it
      will be given are known, so are the runs they make. */
  function Outcome(free: seq<nat>, n: nat): Option<FsErr> {
    if |RunsOf(free[..Least(n, |free|)])| > MAX_ENTRIES then Some(Unsupported)
    else if |free| < n then Some(NoSpace)
    else None
  }

  lemma {:induction false} RunsGrow(p: seq<nat>, n: nat)
    requires n <= |p|
    ensures |RunsOf(p[..n])| <= |RunsOf(p)|
    decreases |p|
  {
    if n < |p| {
      var q := p[..|p| - 1];
      RunsGrow(q, n);
      assert q[..n] == p[..n];
    } else {
      assert p[..n] == p;
    }
  }

  lemma OutcomeDone(f: seq<nat>, p: seq<nat>, n: nat)
    requires InLine(f, p) && |p| == n && |RunsOf(p)| <= MAX_ENTRIES
    ensures Outcome(f, n) == None && p == f[..n]
  {
  }

  lemma OutcomeFull(f: seq<nat>, n: nat)
    requires |f| < n && |RunsOf(f)| <= MAX_ENTRIES
    ensures Outcome(f, n) == Some(NoSpace)
  {
    assert f[..|f|] == f;
  }

  lemma OutcomeFifth(f: seq<nat>, p: seq<nat>, n: nat)
    requires InLine(f, p) && |p| <= n && |RunsOf(p)| > MAX_ENTRIES
    ensures Outcome(f, n) == Some(Unsupported)
  {
    var m := Least(n, |f|);
    assert f[..m][..|p|] == p;
    RunsGrow(f[..m], |p|);
  }
}
