/** Cluster chains in a file allocation table, on the table alone: entry `c` of the table names the
    next cluster of the chain that `c` is on, or marks its end, or is 0 when `c` is free. */
module FatChains {
  import opened Bytes
  import opened Collections

  type Table = seq<nat>

  const EOC: nat := 0x0FFF_FFF8

  /** `v & 0x0FFFFFF8 >= 0x0FFFFFF8` */
  predicate IsEoc(v: nat) { v / 8 % 0x200_0000 == 0x1FF_FFFF }

  /** Link `i` of the chain `p`: to the next cluster, or to the end of the chain. */
  predicate LinkOk(t: Table, p: seq<nat>, i: nat) {
    && i < |p| && 2 <= p[i] < |t|
    && if i + 1 < |p| then t[p[i]] == p[i + 1] else IsEoc(t[p[i]])
  }

  /** Following the table from `p[0]` goes through exactly the clusters `p`, each once, and stops. */
  ghost predicate Chain(t: Table, p: seq<nat>) {
    p != [] && Distinct(p) && forall i: nat :: i < |p| ==> LinkOk(t, p, i)
  }

  /** The chains of the files and directories, by their first cluster: no two share a cluster. */
  type Forest = map<nat, seq<nat>>

  ghost predicate ChainOf(t: Table, f: Forest, c: nat) {
    c in f && Chain(t, f[c]) && f[c][0] == c
  }

  ghost predicate Forested(t: Table, f: Forest) {
    && (forall c :: c in f ==> ChainOf(t, f, c))
    && (forall b, c :: b in f && c in f && b != c ==> Elems(f[b]) !! Elems(f[c]))
    && |t| < 0x0FFF_FFF0
  }

  /** A free entry lies on no chain. */
  lemma FreeOnNoChain(t: Table, p: seq<nat>, x: nat)
    requires Chain(t, p) && x < |t| && t[x] == 0
    ensures x !in p
  {
    forall i: nat | i < |p|
      ensures p[i] != x
    {
      assert LinkOk(t, p, i);
      if i + 1 < |p| {
        assert LinkOk(t, p, i + 1);
      }
    }
  }

  /** A chain no longer than the table: following it ends. */
  lemma ChainShort(t: Table, p: seq<nat>)
    requires Chain(t, p)
    ensures |p| + 2 <= |t|
  {
    forall x | x in p
      ensures 2 <= x < |t|
    {
      var i: nat :| i < |p| && p[i] == x;
      assert LinkOk(t, p, i);
    }
    assert p[0] in p;
    DistinctCount(p, 2, |t|);
  }

  /** A change to an entry that the chain does not use leaves the chain. */
  lemma ChainKept(t: Table, p: seq<nat>, x: nat, v: nat)
    requires Chain(t, p) && x < |t| && x !in p
    ensures Chain(t[x := v], p)
  {
    var t' := t[x := v];
    forall i: nat | i < |p|
      ensures LinkOk(t', p, i)
    {
      assert LinkOk(t, p, i) && p[i] in p;
    }
  }

  // ---- allocation ----

  /** The lowest free cluster. */
  ghost predicate IsLowestFree(t: Table, c: nat) {
    2 <= c < |t| && t[c] == 0 && forall x: nat :: 2 <= x < c ==> t[x] != 0
  }

  ghost predicate NoneFree(t: Table) {
    forall x: nat :: 2 <= x < |t| ==> t[x] != 0
  }

  /** The free clusters from `c` on, in ascending order: what lowest-first allocation hands out. */
  function FreeFrom(t: Table, c: nat): (f: seq<nat>)
    decreases |t| - c
  {
    if c >= |t| then []
    else if t[c] == 0 then [c] + FreeFrom(t, c + 1)
    else FreeFrom(t, c + 1)
  }

  function FreeClusters(t: Table): (f: seq<nat>) { FreeFrom(t, 2) }

  lemma {:induction false} FreeFromIs(t: Table, c: nat, x: nat)
    requires c >= 2
    ensures x in FreeFrom(t, c) <==> c <= x < |t| && t[x] == 0
    decreases |t| - c
  {
    if c < |t| {
      FreeFromIs(t, c + 1, x);
    }
  }

  lemma NoneFreeIs(t: Table)
    ensures FreeClusters(t) == [] <==> NoneFree(t)
  {
    forall x: nat
      ensures x in FreeClusters(t) <==> 2 <= x < |t| && t[x] == 0
    {
      FreeFromIs(t, 2, x);
    }
    if FreeClusters(t) != [] {
      assert FreeClusters(t)[0] in FreeClusters(t);
    }
  }

  /** Setting entries below `c` does not matter to the free clusters from `c` on. */
  lemma {:induction false} FreeBelow(t: Table, c: nat, x: nat, v: nat)
    requires x < c && x < |t|
    ensures FreeFrom(t[x := v], c) == FreeFrom(t, c)
    decreases |t| - c
  {
    if c < |t| {
      FreeBelow(t, c + 1, x, v);
    }
  }

  /** Allocation takes the first of the free clusters and leaves the others. */
  lemma {:induction false} FirstFree(t: Table, c: nat, x: nat, v: nat)
    requires c <= x < |t| && t[x] == 0 && v != 0 && forall y: nat :: c <= y < x ==> t[y] != 0
    ensures FreeFrom(t, c) == [x] + FreeFrom(t[x := v], c)
    decreases |t| - c
  {
    if c < x {
      FirstFree(t, c + 1, x, v);
    } else {
      FreeBelow(t, c + 1, x, v);
    }
  }

  /** An entry in use that stays in use does not matter. */
  lemma {:induction false} FreeSame(t: Table, c: nat, x: nat, v: nat)
    requires x < |t| && t[x] != 0 && v != 0
    ensures FreeFrom(t[x := v], c) == FreeFrom(t, c)
    decreases |t| - c
  {
    if c < |t| {
      FreeSame(t, c + 1, x, v);
    }
  }

  lemma AllOthersKept(t: Table, f: Forest, x: nat, v: nat)
    requires Forested(t, f) && x < |t| && forall c :: c in f ==> x !in f[c]
    ensures Forested(t[x := v], f)
  {
    forall c | c in f
      ensures ChainOf(t[x := v], f, c)
    {
      assert ChainOf(t, f, c);
      ChainKept(t, f[c], x, v);
    }
  }

  /** Allocating a free cluster starts a new chain of one. */
  lemma NewChain(t: Table, f: Forest, c: nat)
    requires Forested(t, f) && 2 <= c < |t| && t[c] == 0
    ensures c !in f && Forested(t[c := EOC], f[c := [c]])
  {
    forall b | b in f
      ensures c !in f[b] && c != b
    {
      assert ChainOf(t, f, b);
      FreeOnNoChain(t, f[b], c);
      assert f[b][0] in f[b];
    }
    AllOthersKept(t, f, c, EOC);
    var t', f' := t[c := EOC], f[c := [c]];
    assert LinkOk(t', [c], 0);
    forall b | b in f'
      ensures ChainOf(t', f', b)
    {
      if b != c {
        assert ChainOf(t', f, b);
      }
    }
  }

  /** Linking a chain of one behind the end of another chain. */
  lemma Linked(t: Table, f: Forest, a: nat, c: nat)
    requires Forested(t, f) && a in f && c in f && a != c && f[c] == [c]
    ensures var p := f[a]; p != [] && p[|p| - 1] < |t|
    ensures var p := f[a]; Forested(t[p[|p| - 1] := c], (f - {c})[a := p + [c]])
  {
    assert ChainOf(t, f, a) && ChainOf(t, f, c);
    var p, n := f[a], |f[a]| - 1;
    var last := p[n];
    assert LinkOk(t, p, n);
    var t', q := t[last := c], p + [c];
    assert last in Elems(p) && c in Elems(f[c]);
    forall i: nat | i < |q|
      ensures LinkOk(t', q, i)
    {
      if i < n {
        assert LinkOk(t, p, i);
      } else if i > n {
        assert LinkOk(t, f[c], 0);
      }
    }
    assert Distinct(q) by {
      forall i | 0 <= i < |p|
        ensures p[i] != c
      {
        assert p[i] in Elems(p);
      }
    }
    var f' := (f - {c})[a := q];
    LinkedOthers(t, f, a, c, last);
    forall b | b in f'
      ensures ChainOf(t', f', b)
    {
      if b != a {
        assert ChainOf(t', f, b);
      }
    }
    assert Elems(q) == Elems(p) + Elems(f[c]);
  }

  lemma LinkedOthers(t: Table, f: Forest, a: nat, c: nat, last: nat)
    requires Forested(t, f) && a in f && last in f[a] && last < |t|
    ensures forall b :: b in f && b != a ==> ChainOf(t[last := c], f, b)
  {
    forall b | b in f && b != a
      ensures ChainOf(t[last := c], f, b)
    {
      assert ChainOf(t, f, b) && Elems(f[a]) !! Elems(f[b]) && last in Elems(f[a]);
      ChainKept(t, f[b], last, c);
    }
  }

  // ---- freeing ----

  /** The table with the first `n` clusters of `p` freed. */
  function Cleared(t: Table, p: seq<nat>, n: nat): (r: Table)
    requires n <= |p| && forall i :: 0 <= i < |p| ==> p[i] < |t|
    ensures |r| == |t|
  {
    if n == 0 then t else Cleared(t, p, n - 1)[p[n - 1] := 0]
  }

  lemma {:induction false} ClearedAt(t: Table, p: seq<nat>, n: nat, x: nat)
    requires n <= |p| && (forall i :: 0 <= i < |p| ==> p[i] < |t|) && x < |t|
    ensures Cleared(t, p, n)[x] == if x in p[..n] then 0 else t[x]
  {
    if n > 0 {
      ClearedAt(t, p, n - 1, x);
      assert p[..n] == p[..n - 1] + [p[n - 1]];
    }
  }

  /** The link about to be followed has not been cleared yet. */
  lemma NextLink(t: Table, p: seq<nat>, n: nat)
    requires Chain(t, p) && n < |p|
    ensures (forall i :: 0 <= i < |p| ==> p[i] < |t|) && LinkOk(t, p, n) && Cleared(t, p, n)[p[n]] == t[p[n]]
  {
    InTable(t, p);
    assert LinkOk(t, p, n);
    assert p[n] !in p[..n];
    ClearedAt(t, p, n, p[n]);
  }

  lemma InTable(t: Table, p: seq<nat>)
    requires Chain(t, p)
    ensures forall i :: 0 <= i < |p| ==> 2 <= p[i] < |t|
  {
    forall i: nat | i < |p|
      ensures 2 <= p[i] < |t|
    {
      assert LinkOk(t, p, i);
    }
  }

  /** Freeing a whole chain leaves every other chain, and the freed clusters are free. */
  lemma ChainFreed(t: Table, f: Forest, a: nat)
    requires Forested(t, f) && a in f
    ensures (forall i :: 0 <= i < |f[a]| ==> f[a][i] < |t|)
    ensures var r := Cleared(t, f[a], |f[a]|);
      && Forested(r, f - {a})
      && forall x :: 0 <= x < |t| ==> r[x] == if x in f[a] then 0 else t[x]
  {
    assert ChainOf(t, f, a);
    var p := f[a];
    InTable(t, p);
    var r := Cleared(t, p, |p|);
    assert p[..|p|] == p;
    forall x | 0 <= x < |t|
      ensures r[x] == if x in p then 0 else t[x]
    {
      ClearedAt(t, p, |p|, x);
    }
    forall b | b in f - {a}
      ensures ChainOf(r, f - {a}, b)
    {
      assert ChainOf(t, f, b) && Elems(f[a]) !! Elems(f[b]);
      SameLinks(t, r, f[b], p);
    }
  }

  lemma SameLinks(t: Table, r: Table, q: seq<nat>, p: seq<nat>)
    requires Chain(t, q) && |r| == |t| && (forall x :: 0 <= x < |t| && x !in p ==> r[x] == t[x]) && Elems(p) !! Elems(q)
    ensures Chain(r, q)
  {
    forall i: nat | i < |q|
      ensures LinkOk(r, q, i)
    {
      assert LinkOk(t, q, i) && q[i] in q;
      NotIn(p, q, q[i]);
    }
  }

  lemma NotIn(p: seq<nat>, q: seq<nat>, x: nat)
    requires Elems(p) !! Elems(q) && x in q
    ensures x !in p
  {
    assert x in Elems(q);
  }
}
