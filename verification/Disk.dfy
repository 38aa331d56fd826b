/** A disk as a sequence of blocks, the raw writes made to it in order, and what a power
    failure can leave behind. A block is written as eight 512-byte sectors in order, so a
    failure leaves a prefix of the raw writes and, of the next one, a prefix of its sectors. */
module Disk {
  import opened Bytes

  type Disk = seq<Block>

  const SECTORS: nat := 8

  datatype RawWrite = RawWrite(blk: nat, data: Block)

  predicate InRange(d: Disk, ws: seq<RawWrite>) {
    forall i :: 0 <= i < |ws| ==> ws[i].blk < |d|
  }

  /** The disk after all of `ws`, in order. */
  function Apply(d: Disk, ws: seq<RawWrite>): (r: Disk)
    requires InRange(d, ws)
    ensures |r| == |d|
    decreases |ws|
  {
    if ws == [] then d
    else
      var n := |ws| - 1;
      Apply(d, ws[..n])[ws[n].blk := ws[n].data]
  }

  /** A block of which only the first `t` sectors were rewritten. */
  function Torn(was: Block, now: Block, t: nat): (r: Block)
    requires t <= SECTORS
    ensures forall i :: 0 <= i < BLOCK ==> r[i] == if i < t * SECTOR then now[i] else was[i]
  {
    now[..t * SECTOR] + was[t * SECTOR..]
  }

  /** The disk when power fails after `k` whole writes and `t` sectors of the next one. */
  function Crash(d: Disk, ws: seq<RawWrite>, k: nat, t: nat): (r: Disk)
    requires InRange(d, ws) && k <= |ws| && t <= SECTORS
    ensures |r| == |d|
  {
    var done := Apply(d, ws[..k]);
    if k == |ws| then done
    else done[ws[k].blk := Torn(done[ws[k].blk], ws[k].data, t)]
  }

  lemma TornEnds(was: Block, now: Block)
    ensures Torn(was, now, 0) == was && Torn(was, now, SECTORS) == now
  {
  }

  lemma ApplyNothing(d: Disk)
    ensures Apply(d, []) == d
  {
  }

  lemma ApplyOne(d: Disk, w: RawWrite)
    requires w.blk < |d|
    ensures Apply(d, [w]) == d[w.blk := w.data]
  {
    assert [w][..0] == [];
  }

  lemma {:induction false} ApplyConcat(d: Disk, a: seq<RawWrite>, b: seq<RawWrite>)
    requires InRange(d, a) && InRange(d, b)
    ensures InRange(d, a + b) && Apply(d, a + b) == Apply(Apply(d, a), b)
    decreases |b|
  {
    if b == [] {
      assert a + b == a;
    } else {
      var n := |b| - 1;
      assert (a + b)[..|a + b| - 1] == a + b[..n];
      ApplyConcat(d, a, b[..n]);
    }
  }

  lemma ApplyThree(d: Disk, a: seq<RawWrite>, b: seq<RawWrite>, w: RawWrite)
    requires InRange(d, a) && InRange(d, b) && w.blk < |d|
    ensures InRange(d, a + b + [w])
    ensures Apply(d, a + b + [w]) == Apply(Apply(d, a), b)[w.blk := w.data]
  {
    ApplyConcat(d, a, b);
    ApplyConcat(d, a + b, [w]);
    ApplyOne(Apply(d, a + b), w);
  }

  /** Blocks that no write names keep their contents. */
  lemma {:induction false} ApplyFrame(d: Disk, ws: seq<RawWrite>, blk: nat)
    requires InRange(d, ws) && blk < |d|
    requires forall i :: 0 <= i < |ws| ==> ws[i].blk != blk
    ensures Apply(d, ws)[blk] == d[blk]
    decreases |ws|
  {
    if ws != [] {
      ApplyFrame(d, ws[..|ws| - 1], blk);
    }
  }

  /** The final contents of a block depend on its own start contents only, and not even on
      those when some write names it. */
  lemma {:induction false} ApplyDetermined(c: Disk, d: Disk, ws: seq<RawWrite>, blk: nat)
    requires |c| == |d| && InRange(d, ws) && blk < |d|
    requires c[blk] == d[blk] || exists i :: 0 <= i < |ws| && ws[i].blk == blk
    ensures Apply(c, ws)[blk] == Apply(d, ws)[blk]
    decreases |ws|
  {
    if ws != [] {
      var n := |ws| - 1;
      if ws[n].blk != blk {
        if c[blk] != d[blk] {
          var i :| 0 <= i < |ws| && ws[i].blk == blk;
          assert ws[..n][i].blk == blk;
        }
        ApplyDetermined(c, d, ws[..n], blk);
      }
    }
  }

  /** If no later write names the block again, write `k` decides its contents. */
  lemma {:induction false} ApplyHit(d: Disk, ws: seq<RawWrite>, k: nat)
    requires InRange(d, ws) && k < |ws|
    requires forall i :: k < i < |ws| ==> ws[i].blk != ws[k].blk
    ensures Apply(d, ws)[ws[k].blk] == ws[k].data
    decreases |ws|
  {
    var n := |ws| - 1;
    if k < n {
      ApplyHit(d, ws[..n], k);
    }
  }

  /** Applying the same writes a second time changes nothing. */
  lemma ApplyIdempotent(d: Disk, ws: seq<RawWrite>)
    requires InRange(d, ws)
    ensures Apply(Apply(d, ws), ws) == Apply(d, ws)
  {
    var e := Apply(d, ws);
    forall blk: nat | blk < |d|
      ensures Apply(e, ws)[blk] == e[blk]
    {
      if forall i :: 0 <= i < |ws| ==> ws[i].blk != blk {
        ApplyFrame(e, ws, blk);
      } else {
        ApplyDetermined(e, d, ws, blk);
      }
    }
  }

  /** A failure during `a + b` is a failure during `a`, or during `b` after all of `a`. */
  lemma CrashConcat(d: Disk, a: seq<RawWrite>, b: seq<RawWrite>, k: nat, t: nat)
    requires InRange(d, a) && InRange(d, b) && k <= |a| + |b| && t <= SECTORS
    ensures InRange(d, a + b)
    ensures k < |a| ==> Crash(d, a + b, k, t) == Crash(d, a, k, t)
    ensures k >= |a| ==> Crash(d, a + b, k, t) == Crash(Apply(d, a), b, k - |a|, t)
  {
    if k < |a| {
      assert (a + b)[..k] == a[..k];
    } else {
      assert (a + b)[..k] == a + b[..k - |a|];
      ApplyConcat(d, a, b[..k - |a|]);
    }
  }

  /** A failure leaves every block alone that no write names. */
  lemma CrashFrame(d: Disk, ws: seq<RawWrite>, k: nat, t: nat, blk: nat)
    requires InRange(d, ws) && k <= |ws| && t <= SECTORS && blk < |d|
    requires forall i :: 0 <= i < |ws| ==> ws[i].blk != blk
    ensures Crash(d, ws, k, t)[blk] == d[blk]
  {
    ApplyFrame(d, ws[..k], blk);
  }

  // ---- logical writes, above the journal ----

  /** A block write as a file system command asks for it. */
  datatype BlockWrite = BlockWrite(blk: nat, buf: Block)

  function BlocksOf(ws: seq<BlockWrite>): (r: set<nat>) {
    set i | 0 <= i < |ws| :: ws[i].blk
  }

  lemma BlocksSnoc(log: seq<BlockWrite>, w: BlockWrite)
    ensures BlocksOf(log + [w]) == BlocksOf(log) + {w.blk}
  {
    var r := log + [w];
    forall b | b in BlocksOf(log) + {w.blk}
      ensures b in BlocksOf(r)
    {
      if b == w.blk {
        assert r[|log|].blk == b;
      } else {
        var i :| 0 <= i < |log| && log[i].blk == b;
        assert r[i].blk == b;
      }
    }
  }

  function Overwrite(h: Disk, ws: seq<BlockWrite>): (r: Disk)
    ensures |r| == |h|
    decreases |ws|
  {
    if ws == [] then h
    else
      var n := |ws| - 1;
      var m := Overwrite(h, ws[..n]);
      if ws[n].blk < |m| then m[ws[n].blk := ws[n].buf] else m
  }
}
