/** Sequences without repetition, their elements as a set, and counting. */
module Collections {
  function Least(a: nat, b: nat): nat { if a <= b then a else b }

  ghost predicate Distinct(p: seq<nat>) {
    forall i, j :: 0 <= i < j < |p| ==> p[i] != p[j]
  }

  function Elems(p: seq<nat>): set<nat> { set x | x in p }

  lemma ElemsTake(p: seq<nat>, n: nat)
    requires n < |p|
    ensures Elems(p[..n + 1]) == Elems(p[..n]) + {p[n]}
  {
    assert p[..n + 1] == p[..n] + [p[n]];
  }

  lemma ElemsSnoc(p: seq<nat>, x: nat)
    ensures Elems(p + [x]) == Elems(p) + {x}
  {
  }

  lemma NotYet(p: seq<nat>, n: nat)
    requires Distinct(p) && n < |p|
    ensures p[n] !in Elems(p[..n])
  {
  }

  lemma {:induction false} DistinctSize(p: seq<nat>)
    requires Distinct(p)
    ensures |Elems(p)| == |p|
  {
    if p != [] {
      var n := |p| - 1;
      DistinctSize(p[..n]);
      NotYet(p, n);
      ElemsTake(p, n);
      assert p[..n + 1] == p;
    }
  }

  lemma {:induction false} ElemsSize(q: seq<nat>)
    ensures |Elems(q)| <= |q|
  {
    if q != [] {
      var n := |q| - 1;
      ElemsSize(q[..n]);
      ElemsTake(q, n);
      assert q[..n + 1] == q;
    }
  }

  /** The numbers from `lo` up to `hi`. */
  function Range(lo: nat, hi: nat): (s: set<nat>)
    requires lo <= hi
    ensures forall x: nat :: x in s <==> lo <= x < hi
    decreases hi - lo
  {
    if lo == hi then {} else Range(lo, hi - 1) + {hi - 1}
  }

  lemma {:induction false} RangeSize(lo: nat, hi: nat)
    requires lo <= hi
    ensures |Range(lo, hi)| == hi - lo
    decreases hi - lo
  {
    if lo < hi {
      RangeSize(lo, hi - 1);
    }
  }

  lemma {:induction false} SubsetSize(a: set<nat>, b: set<nat>)
    requires a <= b
    ensures |a| <= |b|
  {
    if a != {} {
      var x :| x in a;
      SubsetSize(a - {x}, b - {x});
    }
  }

  /** There are no more distinct numbers between two bounds than numbers. */
  lemma DistinctCount(p: seq<nat>, lo: nat, hi: nat)
    requires Distinct(p) && lo <= hi && forall x :: x in p ==> lo <= x < hi
    ensures |p| <= hi - lo
  {
    DistinctSize(p);
    RangeSize(lo, hi);
    SubsetSize(Elems(p), Range(lo, hi));
  }
}
