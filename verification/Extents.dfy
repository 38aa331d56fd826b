/** The extent area of an inode: 60 bytes holding up to four runs of consecutive blocks, which
    together stand for the sequence of the file's physical blocks. */
module Extents {
  import opened Bytes
  import opened Wrappers

  const EXTENT_MAGIC: nat := 0xF30A
  const MAX_LEN: nat := 0x7FFF
  const MAX_ENTRIES: nat := 4

  /** Where the area sits in the 256-byte inode. */
  const AREA_AT: nat := 40

  /** Block numbers stay below 1024 groups of 32768 blocks. */
  const BLOCK_LIMIT: nat := 0x200_0000

  type Area = s: seq<Byte> | |s| == 60 witness seq(60, _ => 0)

  type Raw = s: seq<Byte> | |s| == 256 witness seq(256, _ => 0)

  /** `len` blocks from `start`, holding the file's blocks from `first` on. */
  datatype Extent = Extent(first: nat, len: nat, start: nat)

  // ---- runs of a block sequence ----

  /** The logical block after the first `i` extents. */
  function End(xs: seq<Extent>, i: nat): nat
    requires i <= |xs|
  {
    if i == 0 then 0 else xs[i - 1].first + xs[i - 1].len
  }

  ghost predicate RunHolds(x: Extent, p: seq<nat>) {
    && 1 <= x.len <= MAX_LEN && x.first + x.len <= |p|
    && forall k: nat :: x.first <= k < x.first + x.len ==> p[k] == x.start + (k - x.first)
  }

  /** Two neighbouring runs that could not have been one. */
  predicate Separate(x: Extent, y: Extent) {
    x.len == MAX_LEN || x.start + x.len != y.start
  }

  ghost predicate RunOk(xs: seq<Extent>, p: seq<nat>, i: nat) {
    && i < |xs| && xs[i].first == End(xs, i) && RunHolds(xs[i], p)
    && (i > 0 ==> Separate(xs[i - 1], xs[i]))
  }

  /** `xs` are the maximal runs of consecutive numbers in `p`, cut after 0x7FFF blocks. */
  ghost predicate Runs(xs: seq<Extent>, p: seq<nat>) {
    End(xs, |xs|) == |p| && forall i: nat :: i < |xs| ==> RunOk(xs, p, i)
  }

  /** There is only one such list of runs. */
  lemma {:induction false} RunsUnique(xs: seq<Extent>, ys: seq<Extent>, p: seq<nat>)
    requires Runs(xs, p) && Runs(ys, p)
    ensures xs == ys
  {
    if |xs| <= |ys| {
      RunsAgree(xs, ys, p, |xs|);
      NoneAfterAll(xs, ys, p);
    } else {
      RunsAgree(xs, ys, p, |ys|);
      NoneAfterAll(ys, xs, p);
    }
  }

  lemma NoneAfterAll(xs: seq<Extent>, ys: seq<Extent>, p: seq<nat>)
    requires Runs(xs, p) && Runs(ys, p) && |xs| <= |ys| && xs == ys[..|xs|]
    ensures xs == ys
  {
    assert End(xs, |xs|) == End(ys, |xs|);
    if |xs| < |ys| {
      EndsBefore(ys, p, |xs|);
    }
  }

  lemma EndsBefore(xs: seq<Extent>, p: seq<nat>, i: nat)
    requires Runs(xs, p) && i < |xs|
    ensures End(xs, i) < |p|
  {
    assert RunOk(xs, p, i);
  }

  lemma {:induction false} RunsAgree(xs: seq<Extent>, ys: seq<Extent>, p: seq<nat>, n: nat)
    requires Runs(xs, p) && Runs(ys, p) && n <= |xs| && n <= |ys|
    ensures xs[..n] == ys[..n]
  {
    if n > 0 {
      var i := n - 1;
      RunsAgree(xs, ys, p, i);
      assert End(xs, i) == End(ys, i) by {
        assert i > 0 ==> xs[..i][i - 1] == ys[..i][i - 1];
      }
      assert RunOk(xs, p, i) && RunOk(ys, p, i);
      assert p[xs[i].first] == xs[i].start == ys[i].start;
      NotShorter(xs, ys, p, i);
      NotShorter(ys, xs, p, i);
    }
  }

  /** A run cannot stop before another run from the same place does. */
  lemma NotShorter(xs: seq<Extent>, ys: seq<Extent>, p: seq<nat>, i: nat)
    requires Runs(xs, p) && Runs(ys, p) && i < |xs| && i < |ys|
    requires xs[i].first == ys[i].first && xs[i].start == ys[i].start
    ensures xs[i].len >= ys[i].len
  {
    assert RunOk(xs, p, i) && RunOk(ys, p, i);
    if xs[i].len < ys[i].len {
      RunStops(xs, p, i);
    }
  }

  /** Where a run stops, the blocks stop being consecutive, unless the run is full. */
  lemma RunStops(xs: seq<Extent>, p: seq<nat>, i: nat)
    requires Runs(xs, p) && i < |xs| && xs[i].len < MAX_LEN && xs[i].first + xs[i].len < |p|
    ensures p[xs[i].first + xs[i].len] != xs[i].start + xs[i].len
  {
    assert RunOk(xs, p, i);
    assert RunOk(xs, p, i + 1);
  }

  /** The runs of one more block. */
  function AddBlock(xs: seq<Extent>, blk: nat): (ys: seq<Extent>) {
    var n := |xs|;
    if n > 0 && xs[n - 1].start + xs[n - 1].len == blk && xs[n - 1].len < MAX_LEN
    then xs[n - 1 := xs[n - 1].(len := xs[n - 1].len + 1)]
    else xs + [Extent(End(xs, n), 1, blk)]
  }

  lemma AddBlockRuns(xs: seq<Extent>, p: seq<nat>, blk: nat)
    requires Runs(xs, p)
    ensures Runs(AddBlock(xs, blk), p + [blk])
  {
    var ys, q, n := AddBlock(xs, blk), p + [blk], |xs|;
    forall i: nat | i < |ys|
      ensures RunOk(ys, q, i)
    {
      if i < n {
        assert RunOk(xs, p, i);
        RunGrows(xs[i], p, blk);
        assert End(ys, i) == End(xs, i);
        if i == n - 1 {
          assert End(xs, n) == |p|;
        }
      } else {
        assert n > 0 ==> RunOk(xs, p, n - 1);
        assert End(ys, i) == End(xs, n) == |p|;
      }
    }
  }

  lemma RunGrows(x: Extent, p: seq<nat>, blk: nat)
    requires RunHolds(x, p)
    ensures RunHolds(x, p + [blk])
    ensures x.first + x.len == |p| && x.start + x.len == blk && x.len < MAX_LEN
      ==> RunHolds(x.(len := x.len + 1), p + [blk])
  {
  }

  /** The runs of any block sequence. */
  function RunsOf(p: seq<nat>): (xs: seq<Extent>)
    ensures Runs(xs, p)
    decreases |p|
  {
    if p == [] then []
    else
      var q, blk := p[..|p| - 1], p[|p| - 1];
      AddBlockRuns(RunsOf(q), q, blk);
      assert q + [blk] == p;
      AddBlock(RunsOf(q), blk)
  }

  // ---- the bytes ----

  function Or8(a: Byte, b: Byte): (r: Byte) {
    (a as bv8 | b as bv8) as int
  }

  lemma OrSame(a: Byte)
    ensures Or8(a, a) == a
  {
  }

  /** `r32(o + 8) | r32(o + 6) << 16` in 32 bits: the shift leaves only the two bytes at `o + 6`,
      which overlap the upper half of the number at `o + 8`. */
  function StartOf(b: seq<Byte>, o: nat): (v: nat)
    requires o + 12 <= |b|
  {
    b[o + 8] as int + 256 * b[o + 9] as int
    + 65536 * Or8(b[o + 10], b[o + 6]) as int + 16777216 * Or8(b[o + 11], b[o + 7]) as int
  }

  function Slot(e: nat): nat { 12 + 12 * e }

  function EntryAt(b: seq<Byte>, e: nat): Extent
    requires Slot(e) + 12 <= |b|
  {
    Extent(R32(b, Slot(e)), R16(b, Slot(e) + 4) % 0x8000, StartOf(b, Slot(e)))
  }

  predicate HasMagic(b: Area) { R16(b, 0) == EXTENT_MAGIC }

  /** No area, or one without index levels and with room for its entries. */
  predicate Shallow(b: Area) {
    HasMagic(b) ==> R16(b, 2) <= MAX_ENTRIES && R16(b, 6) == 0
  }

  function Entries(b: Area): (xs: seq<Extent>)
    requires Shallow(b)
    ensures HasMagic(b) ==> |xs| == R16(b, 2) && forall e: nat :: e < |xs| ==> xs[e] == EntryAt(b, e)
  {
    if HasMagic(b) then FirstEntries(b, R16(b, 2)) else []
  }

  function FirstEntries(b: Area, n: nat): (xs: seq<Extent>)
    requires n <= MAX_ENTRIES
    ensures |xs| == n && forall e: nat :: e < n ==> xs[e] == EntryAt(b, e)
  {
    if n == 0 then [] else FirstEntries(b, n - 1) + [EntryAt(b, n - 1)]
  }

  /** The area stands for exactly the block sequence `p`. */
  ghost predicate Holds(b: Area, p: seq<nat>) {
    Shallow(b) && Entries(b) == RunsOf(p) && forall i :: 0 <= i < |p| ==> p[i] < BLOCK_LIMIT
  }

  /** An area stands for at most one block sequence. */
  lemma HoldsOne(b: Area, p: seq<nat>, q: seq<nat>)
    requires Holds(b, p) && Holds(b, q)
    ensures p == q
  {
    var xs := Entries(b);
    assert |p| == |q|;
    forall k: nat | k < |p|
      ensures p[k] == q[k]
    {
      var i := RunAt(xs, p, k);
      assert RunOk(xs, p, i) && RunOk(xs, q, i);
    }
  }

  /** Every logical block lies in one of the runs. */
  lemma {:induction false} RunAt(xs: seq<Extent>, p: seq<nat>, k: nat) returns (i: nat)
    requires Runs(xs, p) && k < |p|
    ensures i < |xs| && xs[i].first <= k < xs[i].first + xs[i].len
  {
    i := RunBefore(xs, p, k, |xs|);
  }

  lemma {:induction false} RunBefore(xs: seq<Extent>, p: seq<nat>, k: nat, n: nat) returns (i: nat)
    requires Runs(xs, p) && n <= |xs| && k < End(xs, n)
    ensures i < n && xs[i].first <= k < xs[i].first + xs[i].len
  {
    i := n - 1;
    assert RunOk(xs, p, i);
    if k < xs[i].first {
      i := RunBefore(xs, p, k, n - 1);
    }
  }

  /** A zeroed area, or one from before the reset, holds no block. */
  lemma EmptyArea(b: Area)
    requires !HasMagic(b)
    ensures Holds(b, [])
  {
  }

  /** The bytes of entry `e` written for a new one-block run. */
  function PutEntry(b: Area, e: nat, first: nat, blk: nat): (r: Area)
    requires e < MAX_ENTRIES && first < U32_LIMIT && blk < U32_LIMIT
  {
    W16(W32(W16(W16(W32(b, Slot(e), first), Slot(e) + 4, 1), Slot(e) + 6, blk / 65536), Slot(e) + 8, blk), 2, e + 1)
  }

  lemma PutEntryReads(b: Area, e: nat, first: nat, blk: nat)
    requires e < MAX_ENTRIES && first < U32_LIMIT && blk < U32_LIMIT && HasMagic(b) && R16(b, 6) == 0
    ensures var r := PutEntry(b, e, first, blk);
      && HasMagic(r) && R16(r, 2) == e + 1 && R16(r, 6) == 0
      && EntryAt(r, e) == Extent(first, 1, blk)
      && forall k: nat :: k < e ==> EntryAt(r, k) == EntryAt(b, k)
  {
    PutStartReads(b, e, first, blk);
    hide StartOf;
    var o := Slot(e);
    var b1 := W32(b, o, first);
    var b2 := W16(b1, o + 4, 1);
    var b3 := W16(b2, o + 6, blk / 65536);
    var b4 := W32(b3, o + 8, blk);
    var r := W16(b4, 2, e + 1);
    assert R32(r, o) == R32(b1, o) && R16(r, o + 4) == R16(b2, o + 4);
    forall k: nat | k < e
      ensures EntryAt(r, k) == EntryAt(b, k)
    {
      SameEntry(b, r, k);
    }
  }

  lemma SameEntry(b: seq<Byte>, r: seq<Byte>, k: nat)
    requires |r| == |b| && Slot(k) + 12 <= |b| && forall i :: Slot(k) <= i < Slot(k) + 12 ==> r[i] == b[i]
    ensures EntryAt(r, k) == EntryAt(b, k)
  {
  }

  lemma PutStartReads(b: Area, e: nat, first: nat, blk: nat)
    requires e < MAX_ENTRIES && first < U32_LIMIT && blk < U32_LIMIT
    ensures StartOf(PutEntry(b, e, first, blk), Slot(e)) == blk
  {
    var o := Slot(e);
    var b2: Area := W16(W32(b, o, first), o + 4, 1);
    var b3: Area := W16(b2, o + 6, blk / 65536);
    var b4: Area := W32(b3, o + 8, blk);
    var r: Area := W16(b4, 2, e + 1);
    assert b4[o + 6] == b4[o + 10] && b4[o + 7] == b4[o + 11] by {
      assert blk / 65536 / 256 == blk / 16777216;
    }
    OrSame(b4[o + 10]);
    OrSame(b4[o + 11]);
    assert StartOf(b4, o) == R32(b4, o + 8) == blk;
    assert StartOf(r, o) == StartOf(b4, o);
  }

  /** The bytes of entry `e` after its run grew to `len` blocks. */
  lemma GrownEntryReads(b: Area, e: nat, len: nat)
    requires e < MAX_ENTRIES && len <= MAX_LEN && HasMagic(b) && R16(b, 6) == 0
    ensures var r := W16(b, Slot(e) + 4, len);
      && HasMagic(r) && R16(r, 2) == R16(b, 2) && R16(r, 6) == 0
      && EntryAt(r, e) == EntryAt(b, e).(len := len)
      && forall k: nat :: k < MAX_ENTRIES && k != e ==> EntryAt(r, k) == EntryAt(b, k)
  {
  }

  /** The header of an area that had none. */
  function InitArea(): (b: Area) {
    W16(W16(W16(W16(Zeros(60), 0, EXTENT_MAGIC), 2, 0), 4, 4), 6, 0)
  }

  lemma InitAreaReads()
    ensures HasMagic(InitArea()) && Shallow(InitArea()) && R16(InitArea(), 6) == 0 && Entries(InitArea()) == []
  {
  }

  // ---- the operations ----

  /** extent_map without index levels: logical block to physical block. */
  method ExtentMap(b: Area, logical: nat, ghost p: seq<nat>) returns (r: Option<nat>)
    requires Holds(b, p)
    ensures r == if logical < |p| then Some(p[logical]) else None
  {
    ghost var xs := RunsOf(p);
    if R16(b, 0) != EXTENT_MAGIC {
      return None;
    }
    for e := 0 to R16(b, 2)
      invariant forall i: nat :: i < e ==> !(xs[i].first <= logical < xs[i].first + xs[i].len)
    {
      assert RunOk(xs, p, e) && xs[e] == EntryAt(b, e);
      var first, len, start := R32(b, Slot(e)), R16(b, Slot(e) + 4) % 0x8000, StartOf(b, Slot(e));
      if logical >= first && logical < first + len {
        return Some(start + (logical - first));
      }
    }
    if logical < |p| {
      ghost var i := RunAt(xs, p, logical);
    }
    return None;
  }

  /** extent_append: succeeds exactly when the longer file still has at most four runs. */
  method ExtentAppend(raw: array<Byte>, blk: nat, ghost p: seq<nat>) returns (ok: bool)
    requires raw.Length == 256 && Holds(raw[40..100], p) && blk < BLOCK_LIMIT && |p| < BLOCK_LIMIT
    modifies raw
    ensures ok <==> |RunsOf(p + [blk])| <= MAX_ENTRIES
    ensures ok ==> Holds(raw[40..100], p + [blk])
    ensures !ok ==> raw[..] == old(raw[..])
    ensures raw[..40] == old(raw[..40]) && raw[100..] == old(raw[100..])
  {
    hide R16, R32, W16, W32, StartOf, InitArea, PutEntry, RunsOf, Entries, RunOk;
    ghost var xs := RunsOf(p);
    var ib: Area := raw[40..100];
    if R16(ib, 0) != EXTENT_MAGIC {
      NoEntries(ib);
      ib := InitArea();
      InitAreaReads();
    }
    if R16(ib, 6) != 0 {
      return false;
    }
    var entries := R16(ib, 2);
    EntriesAre(ib, xs);
    NextRuns(p, blk);
    LastRun(xs, p);
    var lastLogical := 0;
    if entries > 0 {
      var e := entries - 1;
      var first, len, start := R32(ib, Slot(e)), R16(ib, Slot(e) + 4) % 0x8000, StartOf(ib, Slot(e));
      lastLogical := first + len;
      if first + len == lastLogical && start + len == blk && len < MAX_LEN {
        GrowsArea(ib, xs, len + 1);
        ib := W16(ib, Slot(e) + 4, len + 1);
        StoreArea(raw, ib);
        return true;
      }
    }
    if entries >= 4 {
      return false;
    }
    AddsArea(ib, xs, lastLogical, blk);
    ib := PutEntry(ib, entries, lastLogical, blk);
    StoreArea(raw, ib);
    return true;
  }

  lemma NoEntries(b: Area)
    requires !HasMagic(b)
    ensures Entries(b) == []
  {
  }

  lemma EntriesAre(b: Area, xs: seq<Extent>)
    requires Shallow(b) && xs == Entries(b)
    ensures HasMagic(b) ==> |xs| == R16(b, 2) && forall e: nat :: e < |xs| ==> xs[e] == EntryAt(b, e)
  {
  }

  lemma LastRun(xs: seq<Extent>, p: seq<nat>)
    requires Runs(xs, p)
    ensures |xs| > 0 ==> xs[|xs| - 1].len <= MAX_LEN && xs[|xs| - 1].first + xs[|xs| - 1].len == |p|
    ensures End(xs, |xs|) == |p|
  {
    assert |xs| > 0 ==> RunOk(xs, p, |xs| - 1);
  }

  lemma GrowsArea(b: Area, xs: seq<Extent>, len: nat)
    requires Shallow(b) && HasMagic(b) && Entries(b) == xs && xs != [] && len <= MAX_LEN
    ensures var e, r: Area := |xs| - 1, W16(b, Slot(|xs| - 1) + 4, len);
            HasMagic(r) && Shallow(r) && Entries(r) == xs[e := xs[e].(len := len)]
  {
    hide EntryAt, R16, W16;
    GrownEntryReads(b, |xs| - 1, len);
  }

  lemma AddsArea(b: Area, xs: seq<Extent>, first: nat, blk: nat)
    requires Shallow(b) && HasMagic(b) && Entries(b) == xs && |xs| < MAX_ENTRIES && first < U32_LIMIT && blk < U32_LIMIT
    ensures var r := PutEntry(b, |xs|, first, blk);
            HasMagic(r) && Shallow(r) && Entries(r) == xs + [Extent(first, 1, blk)]
  {
    hide EntryAt, R16, PutEntry;
    PutEntryReads(b, |xs|, first, blk);
  }

  lemma NextRuns(p: seq<nat>, blk: nat)
    ensures RunsOf(p + [blk]) == AddBlock(RunsOf(p), blk)
    ensures |RunsOf(p)| <= |RunsOf(p + [blk])|
  {
    assert (p + [blk])[..|p|] == p;
  }

  method StoreArea(raw: array<Byte>, ib: Area)
    requires raw.Length == 256
    modifies raw
    ensures raw[40..100] == ib && raw[..40] == old(raw[..40]) && raw[100..] == old(raw[100..])
  {
    for i := 0 to 60
      invariant forall k :: 0 <= k < i ==> raw[40 + k] == ib[k]
      invariant forall k :: 0 <= k < 256 && !(40 <= k < 40 + i) ==> raw[k] == old(raw[k])
    {
      raw[40 + i] := ib[i];
    }
  }
}
