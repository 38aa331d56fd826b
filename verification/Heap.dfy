/** The kernel heap: a first-fit allocator over an unsorted singly linked free list, whose block
    headers live in the memory it hands out. Address 0 is the null pointer. */
module Heap {
  import opened Bytes
  import opened Collections

  const HEADER: nat := 16
  const MIN_BLOCK: nat := 32

  datatype Header = Header(size: nat, next: nat)

  datatype Layout = Layout(size: nat, align: nat)

  /** `(v + a - 1) & !(a - 1)` for a power of two `a`. */
  function AlignUp(v: nat, a: nat): (r: nat)
    requires a > 0
    ensures v <= r < v + a
    ensures a == 16 ==> r % 16 == 0
  {
    v + a - 1 - (v + a - 1) % a
  }

  /** Where the payload begins inside its block. */
  function Offset(align: nat): (r: nat)
    requires align > 0
    ensures r >= HEADER
  {
    AlignUp(HEADER, align)
  }

  function At(l: seq<nat>, i: nat): nat {
    if i < |l| then l[i] else 0
  }

  /** Entry `i` of the free list is a block whose link leads to the next entry. */
  ghost predicate LinkOk(h: map<nat, Header>, l: seq<nat>, i: nat) {
    i < |l| && l[i] != 0 && l[i] in h && h[l[i]].next == At(l, i + 1)
  }

  /** The free list starting at `first` runs through exactly the blocks `l`. */
  ghost predicate Linked(h: map<nat, Header>, first: nat, l: seq<nat>) {
    first == At(l, 0) && Distinct(l) && forall i: nat :: i < |l| ==> LinkOk(h, l, i)
  }

  lemma Apart(l: seq<nat>, i: nat, j: nat)
    requires Distinct(l) && i < |l| && j < |l| && i != j
    ensures l[i] != l[j]
  {
  }

  function NextTile(tiles: seq<nat>, i: nat, end: nat): nat {
    if i + 1 < |tiles| then tiles[i + 1] else end
  }

  /** Block `i` has a header and ends where the next one begins. */
  ghost predicate TileOk(h: map<nat, Header>, tiles: seq<nat>, i: nat, end: nat) {
    && i < |tiles| && tiles[i] in h && h[tiles[i]].size >= HEADER && tiles[i] % 16 == 0
    && tiles[i] + h[tiles[i]].size == NextTile(tiles, i, end)
  }

  /** The blocks `tiles` follow each other without gap or overlap from `base` to `end`. */
  ghost predicate Tiled(h: map<nat, Header>, tiles: seq<nat>, base: nat, end: nat) {
    tiles != [] && tiles[0] == base && forall i: nat :: i < |tiles| ==> TileOk(h, tiles, i, end)
  }

  /** Every block is either free or live, and each live payload lies in its block, behind the header. */
  ghost predicate Owned(h: map<nat, Header>, l: seq<nat>, tiles: seq<nat>, live: map<nat, Layout>) {
    && (forall b :: b in tiles <==> b in l || b in live)
    && (forall b :: b in l ==> b !in live)
    && (forall b :: b in live ==>
          b in h && live[b].align > 0 && Offset(live[b].align) + live[b].size <= h[b].size)
  }

  ghost predicate Shape(h: map<nat, Header>, first: nat, l: seq<nat>, tiles: seq<nat>, live: map<nat, Layout>,
                        base: nat, end: nat) {
    base > 0 && Linked(h, first, l) && Tiled(h, tiles, base, end) && Owned(h, l, tiles, live)
  }

  // ---- geometry of the tiling ----

  lemma {:induction false} TilesIncrease(h: map<nat, Header>, tiles: seq<nat>, base: nat, end: nat, i: nat, j: nat)
    requires Tiled(h, tiles, base, end) && i < j < |tiles|
    ensures tiles[i] in h && tiles[j] in h && h[tiles[i]].size >= HEADER && tiles[i] + h[tiles[i]].size <= tiles[j]
    decreases j - i
  {
    assert TileOk(h, tiles, i, end) && TileOk(h, tiles, j, end);
    if i + 1 < j {
      TilesIncrease(h, tiles, base, end, i + 1, j);
    }
  }

  /** Two different blocks do not overlap. */
  lemma BlocksDisjoint(h: map<nat, Header>, tiles: seq<nat>, base: nat, end: nat, a: nat, b: nat)
    requires Tiled(h, tiles, base, end) && a in tiles && b in tiles && a != b
    ensures a in h && b in h && (a + h[a].size <= b || b + h[b].size <= a)
  {
    var i: nat :| i < |tiles| && tiles[i] == a;
    var j: nat :| j < |tiles| && tiles[j] == b;
    if i < j {
      TilesIncrease(h, tiles, base, end, i, j);
    } else {
      TilesIncrease(h, tiles, base, end, j, i);
    }
  }

  lemma TileInside(h: map<nat, Header>, tiles: seq<nat>, base: nat, end: nat, i: nat)
    requires Tiled(h, tiles, base, end) && i < |tiles|
    ensures tiles[i] in h && base <= tiles[i] && tiles[i] + h[tiles[i]].size <= end
  {
    var n := |tiles| - 1;
    assert TileOk(h, tiles, i, end) && TileOk(h, tiles, n, end);
    if i > 0 {
      TilesIncrease(h, tiles, base, end, 0, i);
    }
    if i < n {
      TilesIncrease(h, tiles, base, end, i, n);
    }
  }

  lemma TilesHaveHeaders(h: map<nat, Header>, tiles: seq<nat>, base: nat, end: nat)
    requires Tiled(h, tiles, base, end)
    ensures forall b :: b in tiles ==> b in h && h[b].size >= HEADER && b % 16 == 0
  {
    forall b | b in tiles
      ensures b in h && h[b].size >= HEADER && b % 16 == 0
    {
      var i: nat :| i < |tiles| && tiles[i] == b;
      assert TileOk(h, tiles, i, end);
    }
  }

  function TotalSize(h: map<nat, Header>, tiles: seq<nat>): nat
    requires forall b :: b in tiles ==> b in h
  {
    if tiles == [] then 0 else h[tiles[0]].size + TotalSize(h, tiles[1..])
  }

  /** The block sizes always add up to the whole region. */
  lemma {:induction false} SizesConserved(h: map<nat, Header>, tiles: seq<nat>, base: nat, end: nat)
    requires Tiled(h, tiles, base, end)
    ensures forall b :: b in tiles ==> b in h
    ensures TotalSize(h, tiles) == end - base
    decreases |tiles|
  {
    TilesHaveHeaders(h, tiles, base, end);
    assert TileOk(h, tiles, 0, end);
    var rest := tiles[1..];
    if rest != [] {
      forall i: nat | i < |rest|
        ensures TileOk(h, rest, i, end)
      {
        assert TileOk(h, tiles, i + 1, end);
      }
      SizesConserved(h, rest, rest[0], end);
    }
  }

  /** Payload bytes of different live blocks are different bytes, and none is a header byte. */
  lemma PayloadsDisjoint(h: map<nat, Header>, first: nat, l: seq<nat>, tiles: seq<nat>, live: map<nat, Layout>,
                         base: nat, end: nat,
                         a: nat, b: nat)
    requires Shape(h, first, l, tiles, live, base, end) && a in live && b in tiles
    ensures var p := a + Offset(live[a].align);
      && (a != b && b in live ==>
            p + live[a].size <= b + Offset(live[b].align) || b + Offset(live[b].align) + live[b].size <= p)
      && (p + live[a].size <= b || b + HEADER <= p)
  {
    assert a in tiles;
    TilesHaveHeaders(h, tiles, base, end);
    if a != b {
      BlocksDisjoint(h, tiles, base, end, a, b);
    }
  }

  // ---- alignment ----

  predicate IsPowerOfTwo(a: nat) {
    a > 0 && (a == 1 || (a % 2 == 0 && IsPowerOfTwo(a / 2)))
  }

  lemma SmallPowers(a: nat)
    requires IsPowerOfTwo(a) && a <= 16
    ensures a == 1 || a == 2 || a == 4 || a == 8 || a == 16
  {
    if a > 1 {
      assert IsPowerOfTwo(a / 2);
      if a / 2 > 1 {
        assert IsPowerOfTwo(a / 4);
        if a / 4 > 1 {
          assert IsPowerOfTwo(a / 8);
          if a / 8 > 1 {
            assert IsPowerOfTwo(a / 16);
          }
        }
      }
    }
  }

  /** With an alignment of more than 16 a payload lies as the block does: blocks are only ever
      16-aligned, and the offset is a multiple of the alignment. */
  lemma AlignedIff(block: nat, align: nat)
    requires block % 16 == 0 && IsPowerOfTwo(align)
    ensures align <= 16 ==> (block + Offset(align)) % align == 0
    ensures align > 16 ==> (block + Offset(align)) % align == block % align
  {
    hide Offset;
    if align <= 16 {
      SmallPowers(align);
      SmallOffset(block, align);
    } else {
      BigOffset(align);
      ModAdd(block, align);
    }
  }

  /** What Alloc answers with on a heap of this shape. */
  ghost predicate Answers(h: map<nat, Header>, first: nat, l: seq<nat>, tiles: seq<nat>, live: map<nat, Layout>,
                          base: nat, end: nat,
                          lay: Layout, ptr: nat) {
    && Shape(h, first, l, tiles, live, base, end) && lay.align > 0 && (forall b :: b in l ==> b in h)
    && var k := FirstFit(h, l, Need(lay)); k < |l| && ptr == l[k] + Offset(lay.align)
  }

  /** Requests are answered with an aligned payload, on every heap, if and only if they ask for an
      alignment of at most 16. */
  lemma AlignmentIsExact(lay: Layout)
    requires IsPowerOfTwo(lay.align)
    ensures (forall h: map<nat, Header>, first: nat, l: seq<nat>, tiles: seq<nat>, live: map<nat, Layout>, base: nat,
             end: nat, ptr: nat ::
               Answers(h, first, l, tiles, live, base, end, lay, ptr) ==> ptr % lay.align == 0)
            <==> lay.align <= 16
  {
    if lay.align <= 16 {
      forall h: map<nat, Header>, first: nat, l: seq<nat>, tiles: seq<nat>, live: map<nat, Layout>, base: nat,
        end: nat, ptr: nat
        | Answers(h, first, l, tiles, live, base, end, lay, ptr)
        ensures ptr % lay.align == 0
      {
        AnswerAligned(h, first, l, tiles, live, base, end, lay, ptr);
      }
    } else {
      var h, tiles := map[16 := Header(Need(lay), 0)], [16];
      Misaligned(lay);
      assert Answers(h, 16, tiles, tiles, map[], 16, 16 + Need(lay), lay, 16 + Offset(lay.align));
    }
  }

  lemma AnswerAligned(h: map<nat, Header>, first: nat, l: seq<nat>, tiles: seq<nat>, live: map<nat, Layout>,
                      base: nat, end: nat,
                      lay: Layout, ptr: nat)
    requires IsPowerOfTwo(lay.align) && lay.align <= 16 && Answers(h, first, l, tiles, live, base, end, lay, ptr)
    ensures ptr % lay.align == 0
  {
    hide Offset, Linked, Tiled, FirstFit, IsPowerOfTwo;
    TilesHaveHeaders(h, tiles, base, end);
    var k := FirstFit(h, l, Need(lay));
    assert l[k] in l && l[k] in tiles;
    AlignedIff(l[k], lay.align);
  }

  /** A heap of one free block at address 16, just large enough. */
  lemma Misaligned(lay: Layout)
    requires IsPowerOfTwo(lay.align) && lay.align > 16
    ensures var h, tiles := map[16 := Header(Need(lay), 0)], [16];
      && Answers(h, 16, tiles, tiles, map[], 16, 16 + Need(lay), lay, 16 + Offset(lay.align))
      && (16 + Offset(lay.align)) % lay.align == 16
  {
    hide Offset, IsPowerOfTwo;
    AlignedIff(16, lay.align);
    var h, tiles: seq<nat> := map[16 := Header(Need(lay), 0)], [16];
    assert LinkOk(h, tiles, 0) && TileOk(h, tiles, 0, 16 + Need(lay));
    assert Linked(h, 16, tiles) && Tiled(h, tiles, 16, 16 + Need(lay));
  }

  lemma BigOffset(align: nat)
    requires align > 16
    ensures Offset(align) == align
  {
    ModAdd(HEADER - 1, align);
    assert (HEADER - 1) % align == HEADER - 1;
  }

  lemma SmallOffset(block: nat, align: nat)
    requires block % 16 == 0 && (align == 1 || align == 2 || align == 4 || align == 8 || align == 16)
    ensures (block + Offset(align)) % align == 0
  {
    SixteenIn(align);
    Divides16(block + 16);
    hide Offset;
    if align == 1 {
      assert (block + 16) % 1 == 0;
    } else if align == 2 {
      assert (block + 16) % 2 == 0;
    } else if align == 4 {
      assert (block + 16) % 4 == 0;
    } else if align == 8 {
      assert (block + 16) % 8 == 0;
    }
  }

  lemma Divides16(x: nat)
    requires x % 16 == 0
    ensures x % 2 == 0 && x % 4 == 0 && x % 8 == 0
  {
    var q := x / 16;
    Multiples(8 * q, 4 * q, 2 * q);
    assert x == 16 * q;
  }

  lemma Multiples(k: nat, m: nat, n: nat)
    ensures 2 * k % 2 == 0 && 4 * m % 4 == 0 && 8 * n % 8 == 0
  {
  }

  lemma SixteenIn(align: nat)
    requires align == 1 || align == 2 || align == 4 || align == 8 || align == 16
    ensures Offset(align) == 16
  {
  }

  lemma ModAdd(x: nat, a: nat)
    requires a > 0
    ensures (x + a) % a == x % a
  {
    var q, r, q', r' := (x + a) / a, (x + a) % a, x / a, x % a;
    assert x + a == q * a + r && x == q' * a + r';
    assert (q - 1 - q') * a == r' - r by {
      assert (q - 1 - q') * a == q * a - a - q' * a;
    }
    SmallMultiple(q - 1 - q', a, r' - r);
  }

  lemma SmallMultiple(k: int, a: int, d: int)
    requires k * a == d && -a < d < a
    ensures d == 0
  {
    assert k >= 1 ==> k * a >= a;
    assert k <= -1 ==> k * a <= -a;
  }

  // ---- the three changes of shape ----

  function Drop(l: seq<nat>, k: nat): (r: seq<nat>)
    requires k < |l|
    ensures |r| == |l| - 1
    ensures forall i :: 0 <= i < |r| ==> r[i] == if i < k then l[i] else l[i + 1]
  {
    l[..k] + l[k + 1..]
  }

  function InsertAfter(l: seq<nat>, k: nat, x: nat): (r: seq<nat>)
    requires k < |l|
    ensures |r| == |l| + 1
    ensures forall i :: 0 <= i < |r| ==> r[i] == if i <= k then l[i] else if i == k + 1 then x else l[i - 1]
  {
    l[..k + 1] + [x] + l[k + 1..]
  }

  lemma InsertMembers(l: seq<nat>, k: nat, x: nat)
    requires k < |l|
    ensures forall b :: b in InsertAfter(l, k, x) <==> b in l || b == x
  {
    var r := InsertAfter(l, k, x);
    forall b | b in l
      ensures b in r
    {
      var i :| 0 <= i < |l| && l[i] == b;
      assert r[if i <= k then i else i + 1] == b;
    }
    assert r[k + 1] == x;
  }

  lemma DropMembers(l: seq<nat>, k: nat)
    requires k < |l| && Distinct(l)
    ensures forall b :: b in Drop(l, k) <==> b in l && b != l[k]
  {
    var r := Drop(l, k);
    forall b | b in l && b != l[k]
      ensures b in r
    {
      var i :| 0 <= i < |l| && l[i] == b;
      assert r[if i < k then i else i - 1] == b;
    }
  }

  /** Unlinking block `k` of the free list. */
  function Unlinked(h: map<nat, Header>, l: seq<nat>, k: nat, succ: nat): (r: map<nat, Header>)
    requires k < |l| && l[k] in h && (k > 0 ==> l[k - 1] in h)
  {
    var h1 := h[l[k] := h[l[k]].(next := 0)];
    if k == 0 then h1 else h1[l[k - 1] := Header(h1[l[k - 1]].size, succ)]
  }

  /** Changing links but no size keeps the tiling and the ownership. */
  lemma SameSizes(h: map<nat, Header>, h': map<nat, Header>, tiles: seq<nat>, base: nat, end: nat)
    requires Tiled(h, tiles, base, end)
    requires forall b :: b in h ==> b in h' && h'[b].size == h[b].size
    ensures Tiled(h', tiles, base, end)
  {
    forall i: nat | i < |tiles|
      ensures TileOk(h', tiles, i, end)
    {
      assert TileOk(h, tiles, i, end);
    }
  }

  lemma TakeLinked(h: map<nat, Header>, first: nat, l: seq<nat>, k: nat)
    requires Linked(h, first, l) && k < |l|
    ensures LinkOk(h, l, k) && (k > 0 ==> LinkOk(h, l, k - 1))
    ensures var succ := h[l[k]].next;
            Linked(Unlinked(h, l, k, succ), if k == 0 then succ else first, Drop(l, k))
  {
    assert LinkOk(h, l, k) && (k > 0 ==> LinkOk(h, l, k - 1));
    var succ, l' := h[l[k]].next, Drop(l, k);
    var h' := Unlinked(h, l, k, succ);
    forall i: nat | i < |l'|
      ensures LinkOk(h', l', i)
    {
      var j := if i < k then i else i + 1;
      assert LinkOk(h, l, j);
      Apart(l, j, k);
      if i != k - 1 && k > 0 {
        Apart(l, j, k - 1);
      }
    }
    DropDistinct(l, k);
  }

  lemma DropDistinct(l: seq<nat>, k: nat)
    requires Distinct(l) && k < |l|
    ensures Distinct(Drop(l, k))
  {
  }

  lemma TakeOwned(h: map<nat, Header>, h': map<nat, Header>, l: seq<nat>, l': seq<nat>, tiles: seq<nat>,
                  live: map<nat, Layout>,
                  b: nat, lay: Layout)
    requires Owned(h, l, tiles, live) && b in l && lay.align > 0
    requires forall x :: x in l' <==> x in l && x != b
    requires forall x :: x in h ==> x in h' && h'[x].size == h[x].size
    requires b in h && Offset(lay.align) + lay.size <= h[b].size
    ensures Owned(h', l', tiles, live[b := lay])
  {
    hide Offset;
  }

  lemma TakeShape(h: map<nat, Header>, first: nat, l: seq<nat>, tiles: seq<nat>, live: map<nat, Layout>, base: nat,
                  end: nat,
                  k: nat, lay: Layout)
    requires Shape(h, first, l, tiles, live, base, end) && k < |l| && lay.align > 0 && l[k] in h
    requires Offset(lay.align) + lay.size <= h[l[k]].size
    ensures k > 0 ==> l[k - 1] in h
    ensures var succ := h[l[k]].next;
            Shape(Unlinked(h, l, k, succ), if k == 0 then succ else first, Drop(l, k), tiles, live[l[k] := lay], base,
                  end)
  {
    hide Tiled, Offset, Owned, TileOk;
    DropMembers(l, k);
    TakeLinked(h, first, l, k);
    var h' := Unlinked(h, l, k, h[l[k]].next);
    assert forall b :: b in h ==> b in h' && h'[b].size == h[b].size;
    hide Linked, Unlinked, Drop, LinkOk;
    SameSizes(h, h', tiles, base, end);
    TakeOwned(h, h', l, Drop(l, k), tiles, live, l[k], lay);
  }

  /** The headers after splitting the free block `l[k]` at `rest`. */
  function SplitHeaders(h: map<nat, Header>, l: seq<nat>, k: nat, rest: nat, end: nat): map<nat, Header>
    requires k < |l| && l[k] in h && (k > 0 ==> l[k - 1] in h) && l[k] <= rest <= end
  {
    var h1 := h[rest := Header(end - rest, h[l[k]].next)][l[k] := Header(rest - l[k], 0)];
    if k == 0 then h1 else if l[k - 1] in h1 then h1[l[k - 1] := Header(h1[l[k - 1]].size, rest)] else h1
  }

  lemma SplitTiled(h: map<nat, Header>, h': map<nat, Header>, tiles: seq<nat>, base: nat, end: nat, i: nat, rest: nat)
    requires Tiled(h, tiles, base, end) && i < |tiles| && tiles[i] in h
    requires tiles[i] + HEADER <= rest && rest + HEADER <= tiles[i] + h[tiles[i]].size && rest % 16 == 0
    requires tiles[i] in h' && h'[tiles[i]].size == rest - tiles[i]
    requires rest in h' && h'[rest].size == tiles[i] + h[tiles[i]].size - rest
    requires forall b :: b in tiles && b != tiles[i] ==> b in h && b in h' && h'[b].size == h[b].size
    ensures Tiled(h', InsertAfter(tiles, i, rest), base, end)
  {
    var tiles' := InsertAfter(tiles, i, rest);
    forall j: nat | j < |tiles'|
      ensures TileOk(h', tiles', j, end)
    {
      var m := if j <= i then j else j - 1;
      assert TileOk(h, tiles, m, end);
      if j != i && j != i + 1 {
        TilesApart(h, tiles, base, end, m, i);
        assert tiles[m] in tiles;
      }
    }
  }

  lemma TilesApart(h: map<nat, Header>, tiles: seq<nat>, base: nat, end: nat, i: nat, j: nat)
    requires Tiled(h, tiles, base, end) && i < |tiles| && j < |tiles| && i != j
    ensures tiles[i] != tiles[j]
  {
    if i < j {
      TilesIncrease(h, tiles, base, end, i, j);
    } else {
      TilesIncrease(h, tiles, base, end, j, i);
    }
  }

  lemma SplitLinked(h: map<nat, Header>, first: nat, l: seq<nat>, k: nat, rest: nat, end: nat)
    requires Linked(h, first, l) && k < |l| && l[k] < rest <= end && rest !in l
    ensures LinkOk(h, l, k) && (k > 0 ==> LinkOk(h, l, k - 1))
    ensures Linked(SplitHeaders(h, l, k, rest, end), if k == 0 then rest else first, l[k := rest])
  {
    assert LinkOk(h, l, k) && (k > 0 ==> LinkOk(h, l, k - 1) && l[k - 1] in l);
    var h', l' := SplitHeaders(h, l, k, rest, end), l[k := rest];
    forall i: nat | i < |l'|
      ensures LinkOk(h', l', i)
    {
      assert LinkOk(h, l, i) && l[i] in l;
      if i != k {
        Apart(l, i, k);
        if i != k - 1 && k > 0 {
          Apart(l, i, k - 1);
        }
      }
    }
    ReplaceDistinct(l, k, rest);
  }

  lemma ReplaceDistinct(l: seq<nat>, k: nat, x: nat)
    requires Distinct(l) && k < |l| && x !in l
    ensures Distinct(l[k := x])
  {
    forall i | 0 <= i < |l|
      ensures l[i] in l
    {
    }
  }

  lemma SplitOwned(h: map<nat, Header>, h': map<nat, Header>, l: seq<nat>, l': seq<nat>, tiles: seq<nat>,
                   tiles': seq<nat>,
                   live: map<nat, Layout>, b: nat, rest: nat, lay: Layout)
    requires Owned(h, l, tiles, live) && b in l && lay.align > 0 && rest !in tiles
    requires forall x :: x in l' <==> (x in l && x != b) || x == rest
    requires forall x :: x in tiles' <==> x in tiles || x == rest
    requires forall x :: x in h && x != b && x in live ==> x in h' && h'[x].size == h[x].size
    requires b in h' && Offset(lay.align) + lay.size <= h'[b].size
    ensures Owned(h', l', tiles', live[b := lay])
  {
    hide Offset;
  }

  lemma SplitSizes(h: map<nat, Header>, first: nat, l: seq<nat>, k: nat, rest: nat, end: nat)
    requires Linked(h, first, l) && k < |l| && l[k] < rest <= end && rest !in l
    ensures LinkOk(h, l, k) && (k > 0 ==> LinkOk(h, l, k - 1))
    ensures var h' := SplitHeaders(h, l, k, rest, end);
      && l[k] in h' && h'[l[k]].size == rest - l[k] && rest in h' && h'[rest].size == end - rest
      && (forall x :: x in h && x != l[k] && x != rest ==> x in h' && h'[x].size == h[x].size)
  {
    assert LinkOk(h, l, k) && (k > 0 ==> LinkOk(h, l, k - 1) && l[k - 1] in l);
    if k > 0 {
      Apart(l, k - 1, k);
    }
  }

  lemma SplitShape(h: map<nat, Header>, first: nat, l: seq<nat>, tiles: seq<nat>, live: map<nat, Layout>, base: nat,
                   end: nat,
                   k: nat, i: nat, rest: nat, lay: Layout)
    requires Shape(h, first, l, tiles, live, base, end) && k < |l| && lay.align > 0 && i < |tiles| && tiles[i] == l[k]
      && l[k] in h
    requires l[k] + HEADER <= rest && rest + HEADER <= l[k] + h[l[k]].size && rest % 16 == 0
    requires Offset(lay.align) + lay.size <= rest - l[k]
    ensures k > 0 ==> l[k - 1] in h
    ensures var blockEnd := l[k] + h[l[k]].size;
            Shape(SplitHeaders(h, l, k, rest, blockEnd), if k == 0 then rest else first, l[k := rest],
                  InsertAfter(tiles, i, rest), live[l[k] := lay], base, end)
  {
    hide Linked, Offset, SplitHeaders, InsertAfter, Tiled, TileOk, LinkOk, Distinct;
    var blockEnd := l[k] + h[l[k]].size;
    SplitNewTile(h, tiles, base, end, i, rest);
    InsertMembers(tiles, i, rest);
    LinkedDistinct(h, first, l);
    ReplaceMembers(l, k, rest);
    assert l[k] in l && rest !in l;
    SplitSizes(h, first, l, k, rest, blockEnd);
    SplitLinked(h, first, l, k, rest, blockEnd);
    var h' := SplitHeaders(h, l, k, rest, blockEnd);
    TilesHaveHeaders(h, tiles, base, end);
    assert forall x :: x in live ==> x in tiles;
    SplitTiled(h, h', tiles, base, end, i, rest);
    SplitOwned(h, h', l, l[k := rest], tiles, InsertAfter(tiles, i, rest), live, l[k], rest, lay);
  }

  lemma LinkedDistinct(h: map<nat, Header>, first: nat, l: seq<nat>)
    requires Linked(h, first, l)
    ensures Distinct(l) && forall k: nat :: k < |l| ==> l[k] in h
  {
    forall k: nat | k < |l|
      ensures l[k] in h
    {
      assert LinkOk(h, l, k);
    }
  }

  lemma SplitNewTile(h: map<nat, Header>, tiles: seq<nat>, base: nat, end: nat, i: nat, rest: nat)
    requires Tiled(h, tiles, base, end) && i < |tiles| && tiles[i] in h
    requires tiles[i] < rest < tiles[i] + h[tiles[i]].size
    ensures rest !in tiles
  {
    forall j: nat | j < |tiles|
      ensures tiles[j] != rest
    {
      if j < i {
        TilesIncrease(h, tiles, base, end, j, i);
      } else if i < j {
        TilesIncrease(h, tiles, base, end, i, j);
      }
    }
  }

  lemma ReplaceMembers(l: seq<nat>, k: nat, x: nat)
    requires k < |l| && Distinct(l)
    ensures forall b :: b in l[k := x] <==> (b in l && b != l[k]) || b == x
  {
    var r := l[k := x];
    assert r[k] == x;
    forall b | b in l && b != l[k]
      ensures b in r
    {
      var i :| 0 <= i < |l| && l[i] == b;
      assert r[i] == b;
    }
  }

  lemma FreeLinked(h: map<nat, Header>, first: nat, l: seq<nat>, b: nat)
    requires Linked(h, first, l) && b !in l && b in h && b > 0
    ensures Linked(h[b := h[b].(next := first)], b, [b] + l)
  {
    var h', l' := h[b := h[b].(next := first)], [b] + l;
    forall i: nat | i < |l'|
      ensures LinkOk(h', l', i)
    {
      if i > 0 {
        assert LinkOk(h, l, i - 1) && l[i - 1] in l;
      }
    }
    forall i | 0 <= i < |l|
      ensures l[i] != b
    {
      assert l[i] in l;
    }
  }

  lemma FreeOwned(h: map<nat, Header>, h': map<nat, Header>, l: seq<nat>, tiles: seq<nat>, live: map<nat, Layout>,
                  b: nat)
    requires Owned(h, l, tiles, live) && b in live
    requires forall x :: x in h ==> x in h' && h'[x].size == h[x].size
    ensures Owned(h', [b] + l, tiles, live - {b})
  {
    hide Offset;
  }

  lemma FreeShape(h: map<nat, Header>, first: nat, l: seq<nat>, tiles: seq<nat>, live: map<nat, Layout>, base: nat,
                  end: nat, b: nat)
    requires Shape(h, first, l, tiles, live, base, end) && b in live
    ensures b in h && Shape(h[b := h[b].(next := first)], b, [b] + l, tiles, live - {b}, base, end)
  {
    var h' := h[b := h[b].(next := first)];
    assert b in tiles && b !in l;
    var i: nat :| i < |tiles| && tiles[i] == b;
    TileInside(h, tiles, base, end, i);
    FreeLinked(h, first, l, b);
    hide Linked, Offset, Owned;
    SameSizes(h, h', tiles, base, end);
    FreeOwned(h, h', l, tiles, live, b);
  }

  // ---- first fit ----

  /** The bytes a request takes from the front of a block. */
  function Need(lay: Layout): nat
    requires lay.align > 0
  {
    Offset(lay.align) + lay.size
  }

  /** Index of the first free block that is large enough; the list's length if there is none. */
  function FirstFit(h: map<nat, Header>, l: seq<nat>, need: nat): (k: nat)
    ensures k <= |l|
    ensures forall i :: 0 <= i < k ==> !(l[i] in h && h[l[i]].size >= need)
    ensures k < |l| ==> l[k] in h && h[l[k]].size >= need
  {
    if l == [] || (l[0] in h && h[l[0]].size >= need) then 0 else 1 + FirstFit(h, l[1..], need)
  }

  /** Where the unused end of a block would begin. */
  function RestAt(cur: nat, lay: Layout): nat
    requires lay.align > 0
  {
    AlignUp(cur + Need(lay), 16)
  }

  /** A block handed out is as large as asked for, and by less than 48 bytes larger. */
  predicate Snug(h: map<nat, Header>, b: nat, lay: Layout)
    requires lay.align > 0
  {
    b in h && Need(lay) <= h[b].size < Need(lay) + 48
  }

  predicate Splits(cur: nat, size: nat, lay: Layout)
    requires lay.align > 0
  {
    RestAt(cur, lay) < cur + size && cur + size - RestAt(cur, lay) >= MIN_BLOCK
  }

  // ---- memory ----

  /** Bytes outside the headers; an address never written reads as zero. */
  type Contents = map<nat, Byte>

  function Get(data: Contents, x: nat): Byte {
    if x in data then data[x] else 0
  }

  /** Writing a header destroys the bytes under it. */
  function Clobber(data: Contents, a: nat): (r: Contents)
    ensures forall x: nat :: !(a <= x < a + HEADER) ==> Get(r, x) == Get(data, x)
  {
    map x | x in data && !(a <= x < a + HEADER) :: data[x]
  }

  /** Writing a byte destroys any header over it. */
  function Scratch(h: map<nat, Header>, x: nat): (r: map<nat, Header>) {
    map a | a in h && !(a <= x < a + HEADER) :: h[a]
  }

  /** Address `x` is a payload byte of the live block `b`. */
  predicate InPayload(live: map<nat, Layout>, b: nat, x: nat) {
    b in live && live[b].align > 0 && b + Offset(live[b].align) <= x < b + Need(live[b])
  }

  ghost predicate SamePayloads(live: map<nat, Layout>, d: Contents, e: Contents) {
    forall b: nat, x: nat :: InPayload(live, b, x) ==> Get(e, x) == Get(d, x)
  }

  /** The `n` bytes at `q` now are the `n` bytes at `p` then. */
  ghost predicate CopyOf(e: Contents, q: nat, d: Contents, p: nat, n: nat) {
    forall x: nat :: q <= x < q + n ==> Get(e, x) == Get(d, x - q + p)
  }

  /** Clobbering the header of a block of the tiling leaves every live payload alone. */
  lemma ClobberSpares(h: map<nat, Header>, first: nat, l: seq<nat>, tiles: seq<nat>, live: map<nat, Layout>,
                      base: nat, end: nat,
                      d: Contents, a: nat)
    requires Shape(h, first, l, tiles, live, base, end) && a in tiles
    ensures SamePayloads(live, d, Clobber(d, a))
  {
    hide Offset;
    forall b: nat, x: nat | InPayload(live, b, x)
      ensures Get(Clobber(d, a), x) == Get(d, x)
    {
      PayloadsDisjoint(h, first, l, tiles, live, base, end, b, a);
    }
  }

  lemma SamePayloadsRefl(live: map<nat, Layout>, d: Contents)
    ensures SamePayloads(live, d, d)
  {
  }

  /** Up to three header writes inside the tiling leave every live payload alone. */
  lemma Spared(h: map<nat, Header>, first: nat, l: seq<nat>, tiles: seq<nat>, live: map<nat, Layout>, base: nat,
               end: nat,
               before: map<nat, Layout>, d0: Contents, d1: Contents, d2: Contents, d3: Contents, a: nat, b: nat, c: nat)
    requires Shape(h, first, l, tiles, live, base, end) && a in tiles && b in tiles && (c == 0 || c in tiles)
    requires forall x :: x in before ==> x in live && live[x] == before[x]
    requires (d1 == d0 || d1 == Clobber(d0, a)) && d2 == Clobber(d1, b) && d3 == if c == 0 then d2 else Clobber(d2, c)
    ensures SamePayloads(before, d0, d3)
  {
    hide Shape, Clobber, Offset;
    ClobberSpares(h, first, l, tiles, live, base, end, d0, a);
    ClobberSpares(h, first, l, tiles, live, base, end, d1, b);
    if c != 0 {
      ClobberSpares(h, first, l, tiles, live, base, end, d2, c);
    }
    forall k: nat, x: nat | InPayload(before, k, x)
      ensures Get(d3, x) == Get(d0, x)
    {
      assert InPayload(live, k, x);
    }
  }

  /** A live block is one of the tiles. */
  lemma LiveTile(h: map<nat, Header>, first: nat, l: seq<nat>, tiles: seq<nat>, live: map<nat, Layout>, base: nat,
                 end: nat, b: nat)
    requires Shape(h, first, l, tiles, live, base, end) && b in live
    ensures b in tiles && b in h && b !in l && live[b].align > 0
  {
  }

  /** A listed block is one of the tiles. */
  lemma ListedTile(h: map<nat, Header>, first: nat, l: seq<nat>, tiles: seq<nat>, live: map<nat, Layout>, base: nat,
                   end: nat,
                   k: nat) returns (i: nat)
    requires Shape(h, first, l, tiles, live, base, end) && k < |l|
    ensures i < |tiles| && tiles[i] == l[k] && l[k] in tiles && l[k] !in live && l[k] in h && l[k] != 0
      && l[k] % 16 == 0
  {
    assert LinkOk(h, l, k) && l[k] in l;
    TilesHaveHeaders(h, tiles, base, end);
    i :| 0 <= i < |tiles| && tiles[i] == l[k];
  }

  /** A listed block is not a live one. */
  lemma FreshBlock(h: map<nat, Header>, first: nat, l: seq<nat>, tiles: seq<nat>, live: map<nat, Layout>, base: nat,
                   end: nat,
                   k: nat, b: nat)
    requires Shape(h, first, l, tiles, live, base, end) && k < |l| && b in live
    ensures l[k] in l && l[k] !in live && l[k] != b
  {
  }

  lemma InsertMultiset(l: seq<nat>, k: nat, x: nat)
    requires k < |l|
    ensures multiset(InsertAfter(l, k, x)) == multiset(l) + multiset{x}
  {
    assert l == l[..k + 1] + l[k + 1..];
  }

  /** The loop found the first fit. */
  lemma {:induction false} FitIs(h: map<nat, Header>, l: seq<nat>, need: nat, k: nat)
    requires k < |l| && l[k] in h && h[l[k]].size >= need
    requires forall i :: 0 <= i < k ==> l[i] in h && h[l[i]].size < need
    ensures FirstFit(h, l, need) == k
    decreases |l|
  {
    if k > 0 {
      FitIs(h, l[1..], need, k - 1);
    }
  }

  /** The payloads of two live blocks share no byte. */
  lemma NewMissesOld(h: map<nat, Header>, first: nat, l: seq<nat>, tiles: seq<nat>, live: map<nat, Layout>, base: nat,
                     end: nat,
                     a: nat, b: nat, i: nat)
    requires Shape(h, first, l, tiles, live, base, end) && a in live && b in live && a != b
    requires live[a].align > 0 && live[b].align > 0 && i < live[a].size && i < live[b].size
    ensures var p, q := a + Offset(live[a].align), b + Offset(live[b].align);
            !(p <= q + i < p + live[a].size)
  {
    hide Offset;
    assert b in tiles;
    PayloadsDisjoint(h, first, l, tiles, live, base, end, a, b);
  }

  /** Writing inside one payload leaves the others alone. */
  lemma CopySpares(h: map<nat, Header>, first: nat, l: seq<nat>, tiles: seq<nat>, live: map<nat, Layout>, base: nat,
                   end: nat,
                   a: nat, p: nat, from: nat, n: nat, d: Contents, e: Contents)
    requires Shape(h, first, l, tiles, live, base, end) && a in live && live[a].align > 0
    requires p == a + Offset(live[a].align) && n <= live[a].size
    requires Copied(e, p, d, from, n)
    ensures SamePayloads(live - {a}, d, e) && CopyOf(e, p, d, from, n)
  {
    hide Offset;
    forall b: nat, x: nat | InPayload(live - {a}, b, x)
      ensures Get(e, x) == Get(d, x)
    {
      assert b in live && b in tiles;
      PayloadsDisjoint(h, first, l, tiles, live, base, end, a, b);
    }
  }

  /** The `n` bytes at `q` now are the `n` bytes at `p` then; every other byte is as it was. */
  ghost predicate Copied(e: Contents, q: nat, d: Contents, p: nat, n: nat) {
    && CopyOf(e, q, d, p, n)
    && forall x: nat :: !(q <= x < q + n) ==> Get(e, x) == Get(d, x)
  }

  lemma CopyStep(e: Contents, q: nat, d: Contents, p: nat, n: nat)
    requires Copied(e, q, d, p, n) && !(q <= p + n < q + n)
    ensures Get(e, p + n) == Get(d, p + n)
    ensures Copied(e[q + n := Get(e, p + n)], q, d, p, n + 1)
  {
    var y := p + n;
    assert Get(e, y) == Get(d, y);
    var e' := e[q + n := Get(e, y)];
    forall x: nat | q <= x < q + n + 1
      ensures Get(e', x) == Get(d, x - q + p)
    {
      if x < q + n {
        assert Get(e', x) == Get(e, x);
      }
    }
    forall x: nat | !(q <= x < q + n + 1)
      ensures Get(e', x) == Get(d, x)
    {
      assert Get(e', x) == Get(e, x);
    }
  }

  lemma CopyNothing(d: Contents, q: nat, p: nat)
    ensures Copied(d, q, d, p, 0)
  {
  }

  /** A new block was made, the payload copied into it, the old block freed. */
  lemma ReallocKeeps(live0: map<nat, Layout>, b0: nat, b1: nat, d0: Contents, d1: Contents, d2: Contents, d3: Contents,
                     lay: Layout, newSize: nat, copy: nat)
    requires b0 in live0 && live0[b0] == lay && lay.align > 0 && b1 !in live0 && copy <= lay.size && copy <= newSize
    requires var live1 := live0[b1 := Layout(newSize, lay.align)];
      SamePayloads(live0, d0, d1) && SamePayloads(live1 - {b1}, d1, d2) && SamePayloads(live1 - {b0}, d2, d3)
    requires CopyOf(d2, b1 + Offset(lay.align), d1, b0 + Offset(lay.align), copy)
    ensures SamePayloads(live0 - {b0}, d0, d3)
    ensures CopyOf(d3, b1 + Offset(lay.align), d0, b0 + Offset(lay.align), copy)
  {
    hide Offset;
    var live1 := live0[b1 := Layout(newSize, lay.align)];
    forall b: nat, x: nat | InPayload(live0 - {b0}, b, x)
      ensures Get(d3, x) == Get(d0, x)
    {
      assert InPayload(live0, b, x) && InPayload(live1 - {b1}, b, x) && InPayload(live1 - {b0}, b, x);
    }
    var p, q := b0 + Offset(lay.align), b1 + Offset(lay.align);
    forall x: nat | q <= x < q + copy
      ensures Get(d3, x) == Get(d0, x - q + p)
    {
      assert InPayload(live0, b0, x - q + p);
      assert InPayload(live1 - {b0}, b1, x);
    }
  }

  /** Where the bootloader maps physical memory. */
  const PHYS_OFFSET: nat := 0xFFFF_8000_0000_0000

  class HeapAllocator {
    const base: nat
    const end: nat
    var headers: map<nat, Header>
    var data: Contents
    var free: nat
    var total: nat
    var used: nat
    var allocs: nat
    var frees: nat

    ghost var list: seq<nat>
    ghost var tiles: seq<nat>
    ghost var live: map<nat, Layout>

    ghost predicate Valid()
      reads this
    {
      Shape(headers, free, list, tiles, live, base, end) && forall a :: a in headers ==> a in tiles
    }

    constructor Init(basePhys: nat, size: nat)
      requires size >= 64
      ensures Valid() && list == [base] && tiles == [base] && live == map[]
      ensures base % 16 == 0 && basePhys + PHYS_OFFSET <= base && end == basePhys + PHYS_OFFSET + size - HEADER
      ensures total == end + HEADER - base && used == 0
    {
      base := AlignUp(basePhys, 16) + PHYS_OFFSET;
      var usable := size - (AlignUp(basePhys, 16) - basePhys);
      end := AlignUp(basePhys, 16) + PHYS_OFFSET + usable - HEADER;
      headers := map[AlignUp(basePhys, 16) + PHYS_OFFSET := Header(usable - HEADER, 0)];
      data := map[];
      free := AlignUp(basePhys, 16) + PHYS_OFFSET;
      total, used, allocs, frees := usable, 0, 0, 0;
      list := [AlignUp(basePhys, 16) + PHYS_OFFSET];
      tiles := [AlignUp(basePhys, 16) + PHYS_OFFSET];
      live := map[];
      new;
      assert LinkOk(headers, list, 0) && TileOk(headers, tiles, 0, end);
    }

    method WriteHeader(a: nat, hd: Header)
      modifies this`headers, this`data
      ensures headers == old(headers)[a := hd] && data == Clobber(old(data), a)
    {
      headers := headers[a := hd];
      data := Clobber(data, a);
    }

    /** First fit: null exactly when no free block is large enough; otherwise the front of the
        first one that is, its end split off when at least 32 bytes remain. */
    method Alloc(lay: Layout) returns (ptr: nat)
      requires Valid() && lay.align > 0
      modifies this
      ensures Valid()
      ensures ptr == 0 <==> forall b :: b in old(list) ==> b in old(headers) && old(headers)[b].size < Need(lay)
      ensures ptr == 0 ==> headers == old(headers) && list == old(list) && tiles == old(tiles)
      ensures ptr == 0 ==> live == old(live) && data == old(data)
      ensures ptr != 0 ==>
                var k := FirstFit(old(headers), old(list), Need(lay));
                && k < |old(list)| && ptr == old(list)[k] + Offset(lay.align) && Snug(headers, old(list)[k], lay)
                && live == old(live)[old(list)[k] := lay]
                && (if Splits(old(list)[k], old(headers)[old(list)[k]].size, lay)
                    then list == old(list)[k := RestAt(old(list)[k], lay)]
                      && multiset(tiles) == multiset(old(tiles)) + multiset{RestAt(old(list)[k], lay)}
                    else list == Drop(old(list), k) && tiles == old(tiles))
      ensures SamePayloads(old(live), old(data), data)
      ensures used == old(used) + if ptr == 0 then 0 else Need(lay)
    {
      hide Offset, Tiled, Owned, Splits, RestAt, Drop, SamePayloads, FirstFit, Distinct;
      var prev, cur := 0, free;
      ghost var k := 0;
      SamePayloadsRefl(live, data);
      while cur != 0
        invariant k <= |list| && cur == At(list, k) && (k > 0 ==> prev == list[k - 1]) && (k == 0 ==> prev == 0)
        invariant forall i :: 0 <= i < k ==> list[i] in headers && headers[list[i]].size < Need(lay)
        decreases |list| - k
      {
        assert LinkOk(headers, list, k);
        if headers[cur].size >= Need(lay) {
          FitIs(headers, list, Need(lay), k);
          TakeBlock(lay, prev, cur, k);
          used := used + Need(lay);
          allocs := allocs + 1;
          return cur + Offset(lay.align);
        }
        prev := cur;
        cur := headers[cur].next;
        k := k + 1;
      }
      assert k < |list| ==> LinkOk(headers, list, k);
      return 0;
    }

    /** Takes the front of the free block `cur`, the `k`-th of the list. */
    method TakeBlock(lay: Layout, prev: nat, cur: nat, ghost k: nat)
      requires Valid() && lay.align > 0 && k < |list| && cur == list[k] && prev == (if k == 0 then 0 else list[k - 1])
      requires cur in headers && headers[cur].size >= Need(lay)
      modifies this`headers, this`data, this`free, this`list, this`tiles, this`live
      ensures Valid() && live == old(live)[cur := lay] && Snug(headers, cur, lay)
      ensures if Splits(cur, old(headers)[cur].size, lay)
              then list == old(list)[k := RestAt(cur, lay)]
                && multiset(tiles) == multiset(old(tiles)) + multiset{RestAt(cur, lay)}
              else list == Drop(old(list), k) && tiles == old(tiles)
      ensures SamePayloads(old(live), old(data), data)
    {
      hide Shape, Offset, SamePayloads, Drop;
      var blockEnd := cur + headers[cur].size;
      var restAddr := AlignUp(cur + Need(lay), 16);
      if restAddr < blockEnd && blockEnd - restAddr >= MIN_BLOCK {
        TakeFront(lay, prev, cur, blockEnd, restAddr, k);
      } else {
        TakeWhole(lay, prev, cur, k);
      }
    }

    /** The free block is cut at `restAddr`; the cut-off end takes its place in the list. */
    method TakeFront(lay: Layout, prev: nat, cur: nat, blockEnd: nat, restAddr: nat, ghost k: nat)
      requires Valid() && lay.align > 0 && k < |list| && cur == list[k] && prev == (if k == 0 then 0 else list[k - 1])
      requires cur in headers && blockEnd == cur + headers[cur].size
      requires restAddr % 16 == 0 && cur + Need(lay) <= restAddr && restAddr + MIN_BLOCK <= blockEnd
      modifies this`headers, this`data, this`free, this`list, this`tiles, this`live
      ensures Valid() && live == old(live)[cur := lay]
      ensures list == old(list)[k := restAddr] && multiset(tiles) == multiset(old(tiles)) + multiset{restAddr}
      ensures cur in headers && headers[cur].size == restAddr - cur
      ensures SamePayloads(old(live), old(data), data)
    {
      hide Offset, Linked, Tiled, Owned, Clobber, SamePayloads, InsertAfter, Shape;
      ghost var h0, d0 := headers, data;
      ghost var i := ListedTile(headers, free, list, tiles, live, base, end, k);
      if k > 0 {
        ghost var _ := ListedTile(headers, free, list, tiles, live, base, end, k - 1);
      }
      SplitShape(headers, free, list, tiles, live, base, end, k, i, restAddr, lay);
      InsertMultiset(tiles, i, restAddr);
      InsertMembers(tiles, i, restAddr);
      WriteHeader(restAddr, Header(blockEnd - restAddr, headers[cur].next));
      ghost var d1 := data;
      WriteHeader(cur, Header(restAddr - cur, 0));
      ghost var d2 := data;
      if prev == 0 {
        free := restAddr;
      } else {
        WriteHeader(prev, Header(headers[prev].size, restAddr));
      }
      assert cur in headers && headers[cur].size == restAddr - cur;
      assert headers == SplitHeaders(h0, list, k, restAddr, blockEnd);
      hide SplitHeaders;
      list := list[k := restAddr];
      tiles := InsertAfter(tiles, i, restAddr);
      live := live[cur := lay];
      Spared(headers, free, list, tiles, live, base, end, old(live), d0, d1, d2, data, restAddr, cur, prev);
    }

    /** The whole free block is handed out and unlinked. */
    method TakeWhole(lay: Layout, prev: nat, cur: nat, ghost k: nat)
      requires Valid() && lay.align > 0 && k < |list| && cur == list[k] && prev == (if k == 0 then 0 else list[k - 1])
      requires cur in headers && headers[cur].size >= Need(lay)
      modifies this`headers, this`data, this`free, this`list, this`live
      ensures Valid() && live == old(live)[cur := lay] && list == Drop(old(list), k)
      ensures cur in headers && headers[cur].size == old(headers)[cur].size
      ensures SamePayloads(old(live), old(data), data)
    {
      hide Offset, Linked, Tiled, Owned, Clobber, SamePayloads, Drop, Shape;
      ghost var h0, d0 := headers, data;
      ghost var _ := ListedTile(headers, free, list, tiles, live, base, end, k);
      if k > 0 {
        ghost var _ := ListedTile(headers, free, list, tiles, live, base, end, k - 1);
      }
      TakeShape(headers, free, list, tiles, live, base, end, k, lay);
      var succ := headers[cur].next;
      WriteHeader(cur, Header(headers[cur].size, 0));
      ghost var d2 := data;
      if prev == 0 {
        free := succ;
      } else {
        WriteHeader(prev, Header(headers[prev].size, succ));
      }
      assert headers == Unlinked(h0, list, k, succ);
      list := Drop(list, k);
      live := live[cur := lay];
      Spared(headers, free, list, tiles, live, base, end, old(live), d0, d0, d2, data, cur, cur, prev);
    }

    /** Frees a block handed out with the same layout; a null pointer is ignored. */
    method Dealloc(ptr: nat, lay: Layout)
      requires Valid() && lay.align > 0
      requires ptr != 0 ==>
                 ptr >= Offset(lay.align) && ptr - Offset(lay.align) in live && live[ptr - Offset(lay.align)] == lay
      modifies this
      ensures Valid() && tiles == old(tiles)
      ensures ptr == 0 ==> live == old(live) && list == old(list) && headers == old(headers)
      ensures ptr == 0 ==> data == old(data) && used == old(used)
      ensures ptr != 0 ==>
                var b := ptr - Offset(lay.align);
                && list == [b] + old(list) && live == old(live) - {b}
                && used == if old(used) >= old(headers)[b].size then old(used) - old(headers)[b].size else 0
      ensures SamePayloads(live, old(data), data)
    {
      hide Offset, Linked, Tiled, Owned, Clobber, TileOk, Shape;
      if ptr == 0 {
        return;
      }
      var block := ptr - Offset(lay.align);
      LiveTile(headers, free, list, tiles, live, base, end, block);
      FreeShape(headers, free, list, tiles, live, base, end, block);
      var size := headers[block].size;
      var head := free;
      free := block;
      ghost var d0 := data;
      WriteHeader(block, Header(size, head));
      used := if used >= size then used - size else 0;
      frees := frees + 1;
      list := [block] + list;
      live := live - {block};
      ClobberSpares(headers, free, list, tiles, live, base, end, d0, block);
    }

    /** One byte of a payload is written. */
    method Store(ghost b: nat, x: nat, v: Byte)
      requires Valid() && InPayload(live, b, x)
      modifies this`headers, this`data
      ensures headers == old(headers) && data == old(data)[x := v]
    {
      hide Offset, Linked;
      forall a | a in headers
        ensures !(a <= x < a + HEADER)
      {
        PayloadsDisjoint(headers, free, list, tiles, live, base, end, b, a);
      }
      assert Scratch(headers, x) == headers;
      data := data[x := v];
      headers := Scratch(headers, x);
    }

    /** Moves a payload to a new block: null exactly when no free block is large enough, and then nothing
        changes; otherwise the front of the first one that is holds the common prefix, and the old block
        is the first of the free list. */
    method Realloc(ptr: nat, lay: Layout, newSize: nat) returns (newPtr: nat)
      requires Valid() && lay.align > 0
      requires ptr >= Offset(lay.align) && ptr - Offset(lay.align) in live && live[ptr - Offset(lay.align)] == lay
      modifies this
      ensures Valid()
      ensures newPtr == 0 <==>
              forall b :: b in old(list) ==>
                b in old(headers) && old(headers)[b].size < Need(Layout(newSize, lay.align))
      ensures newPtr == 0 ==> live == old(live) && list == old(list) && tiles == old(tiles)
      ensures newPtr == 0 ==> headers == old(headers) && data == old(data) && used == old(used)
      ensures newPtr != 0 ==>
                var next, was := Layout(newSize, lay.align), ptr - Offset(lay.align);
                var k := FirstFit(old(headers), old(list), Need(next));
                && k < |old(list)| && newPtr == old(list)[k] + Offset(lay.align)
                && live == old(live)[old(list)[k] := next] - {was}
                && CopyOf(data, newPtr, old(data), ptr, if lay.size < newSize then lay.size else newSize)
                && (if Splits(old(list)[k], old(headers)[old(list)[k]].size, next)
                    then list == [was] + old(list)[k := RestAt(old(list)[k], next)]
                      && multiset(tiles) == multiset(old(tiles)) + multiset{RestAt(old(list)[k], next)}
                    else list == [was] + Drop(old(list), k) && tiles == old(tiles))
      ensures SamePayloads(old(live) - {ptr - Offset(lay.align)}, old(data), data)
    {
      hide Offset, Shape, SamePayloads, Splits, RestAt, Drop, Copied, CopyOf, Get, FirstFit;
      ghost var d0, live0, list0, b0 := data, live, list, ptr - Offset(lay.align);
      ghost var headers0, free0, tiles0 := headers, free, tiles;
      LiveTile(headers, free, list, tiles, live, base, end, b0);
      newPtr := Alloc(Layout(newSize, lay.align));
      if newPtr == 0 {
        SamePayloadsRefl(live0 - {b0}, d0);
        return 0;
      }
      ghost var d1, b1 := data, newPtr - Offset(lay.align);
      FreshBlock(headers0, free0, list0, tiles0, live0, base, end, FirstFit(headers0, list0,
          newSize + Offset(lay.align)), b0);
      var copy := if lay.size < newSize then lay.size else newSize;
      CopyNothing(d1, newPtr, ptr);
      for i := 0 to copy
        modifies this`headers, this`data
        invariant Valid() && Copied(data, newPtr, d1, ptr, i)
      {
        NewMissesOld(headers, free, list, tiles, live, base, end, b1, b0, i);
        CopyStep(data, newPtr, d1, ptr, i);
        Store(b1, newPtr + i, Get(data, ptr + i));
      }
      ghost var d2 := data;
      CopySpares(headers, free, list, tiles, live, base, end, b1, newPtr, ptr, copy, d1, d2);
      Dealloc(ptr, lay);
      ReallocKeeps(live0, b0, b1, d0, d1, d2, data, lay, newSize, copy);
    }
  }
}
