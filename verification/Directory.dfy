/** Directory blocks: variable-length records that tile a block, and the map from names to inodes
    that they stand for. */
module Directory {
  import opened Bytes
  import opened Wrappers

  /** A name's inode and type. */
  datatype Target = Target(ino: nat, ftype: Byte)

  datatype DirEnt = DirEnt(name: seq<Byte>, target: Target)

  type DirMap = map<seq<Byte>, Target>

  // ---- lists of entries ----

  /** The map a list of entries stands for; the first entry of a name counts. */
  function AsMap(es: seq<DirEnt>): DirMap {
    if es == [] then map[] else AsMap(es[1..])[es[0].name := es[0].target]
  }

  ghost predicate DistinctNames(es: seq<DirEnt>) {
    forall i, j :: 0 <= i < j < |es| ==> es[i].name != es[j].name
  }

  lemma {:induction false} AsMapConcat(a: seq<DirEnt>, b: seq<DirEnt>)
    ensures AsMap(a + b) == AsMap(b) + AsMap(a)
  {
    if a == [] {
      assert a + b == b;
    } else {
      AsMapConcat(a[1..], b);
      assert (a + b)[1..] == a[1..] + b;
    }
  }

  lemma {:induction false} AsMapKeys(es: seq<DirEnt>, name: seq<Byte>)
    ensures name in AsMap(es) <==> exists i :: 0 <= i < |es| && es[i].name == name
  {
    if es != [] {
      AsMapKeys(es[1..], name);
      if i :| 0 <= i < |es| && es[i].name == name {
        if i > 0 {
          assert es[1..][i - 1].name == name;
        }
      }
      if i :| 0 <= i < |es[1..]| && es[1..][i].name == name {
        assert es[i + 1].name == name;
      }
    }
  }

  lemma OneEntry(e: DirEnt)
    ensures AsMap([e]) == map[e.name := e.target]
  {
    assert [e][1..] == [];
  }

  /** Putting an entry with a new name anywhere into the list adds that name and nothing else. */
  lemma InsertEntry(a: seq<DirEnt>, e: DirEnt, b: seq<DirEnt>)
    requires DistinctNames(a + b) && e.name !in AsMap(a + b)
    ensures AsMap(a + [e] + b) == AsMap(a + b)[e.name := e.target]
    ensures DistinctNames(a + [e] + b)
  {
    AsMapConcat(a, b);
    AsMapConcat(a + [e], b);
    AsMapConcat(a, [e]);
    OneEntry(e);
    var r, s := a + [e] + b, a + b;
    forall i, j | 0 <= i < j < |r|
      ensures r[i].name != r[j].name
    {
      var i', j' := if i > |a| then i - 1 else i, if j > |a| then j - 1 else j;
      if i == |a| {
        AsMapKeys(s, e.name);
        assert s[j'] == r[j];
      } else if j == |a| {
        AsMapKeys(s, e.name);
        assert s[i'] == r[i];
      } else {
        assert s[i'] == r[i] && s[j'] == r[j];
      }
    }
  }

  /** Taking an entry out of the list removes its name and nothing else. */
  lemma RemoveEntry(a: seq<DirEnt>, e: DirEnt, b: seq<DirEnt>)
    requires DistinctNames(a + [e] + b)
    ensures AsMap(a + b) == AsMap(a + [e] + b) - {e.name}
    ensures DistinctNames(a + b) && e.name in AsMap(a + [e] + b)
  {
    StillDistinct(a, e, b);
    NotAmong(a, e, b);
    hide DistinctNames, AsMap;
    AsMapConcat(a, b);
    AsMapConcat(a + [e], b);
    AsMapConcat(a, [e]);
    OneEntry(e);
  }

  lemma StillDistinct(a: seq<DirEnt>, e: DirEnt, b: seq<DirEnt>)
    requires DistinctNames(a + [e] + b)
    ensures DistinctNames(a + b)
  {
    var r, s := a + [e] + b, a + b;
    forall i, j | 0 <= i < j < |s|
      ensures s[i].name != s[j].name
    {
      var i', j' := if i >= |a| then i + 1 else i, if j >= |a| then j + 1 else j;
      assert s[i] == r[i'] && s[j] == r[j'];
    }
  }

  lemma NotAmong(a: seq<DirEnt>, e: DirEnt, b: seq<DirEnt>)
    requires DistinctNames(a + [e] + b)
    ensures e.name !in AsMap(a) && e.name !in AsMap(b)
  {
    var r := a + [e] + b;
    AsMapKeys(a, e.name);
    AsMapKeys(b, e.name);
    assert r[|a|] == e;
    forall i | 0 <= i < |a|
      ensures a[i].name != e.name
    {
      assert r[i] == a[i];
    }
    forall i | 0 <= i < |b|
      ensures b[i].name != e.name
    {
      assert r[|a| + 1 + i] == b[i];
    }
  }

  // ---- records of a block ----

  function InoAt(b: Block, o: nat): nat
    requires o + 8 <= 4096
  {
    R32(b, o)
  }

  function RecAt(b: Block, o: nat): nat
    requires o + 8 <= 4096
  {
    R16(b, o + 4)
  }

  function EntAt(b: Block, o: nat): DirEnt
    requires o + 8 <= 4096 && o + 8 + b[o + 6] <= 4096
  {
    DirEnt(b[o + 8..o + 8 + b[o + 6]], Target(R32(b, o), b[o + 7]))
  }

  /** A record that can hold what it says it holds. */
  predicate RecordOk(b: Block, o: nat) {
    && o + 8 <= 4096 && 8 <= RecAt(b, o) && o + RecAt(b, o) <= 4096
    && (InoAt(b, o) != 0 ==> 8 + b[o + 6] <= RecAt(b, o))
  }

  /** From `o` on, the records follow each other to the end of the block. */
  predicate TiledFrom(b: Block, o: nat)
    decreases 4096 - o
  {
    o == 4096 || (RecordOk(b, o) && TiledFrom(b, o + RecAt(b, o)))
  }

  /** Tiled by records, or as allocated: with an empty first record of no length. */
  predicate BlockOk(b: Block) {
    TiledFrom(b, 0) || (InoAt(b, 0) == 0 && RecAt(b, 0) == 0)
  }

  /** What the record at `o` contributes: nothing if it is unused. */
  function Here(b: Block, o: nat): seq<DirEnt>
    requires RecordOk(b, o)
  {
    if InoAt(b, o) == 0 then [] else [EntAt(b, o)]
  }

  function LiveFrom(b: Block, o: nat): seq<DirEnt>
    requires TiledFrom(b, o)
    decreases 4096 - o
  {
    if o == 4096 then [] else Here(b, o) + LiveFrom(b, o + RecAt(b, o))
  }

  /** The entries of a block, in order. */
  function Live(b: Block): seq<DirEnt>
    requires BlockOk(b)
  {
    if TiledFrom(b, 0) then LiveFrom(b, 0) else []
  }

  /** `off` is the start of a record, counting from `o`. */
  predicate Reaches(b: Block, o: nat, off: nat)
    requires TiledFrom(b, o)
    decreases 4096 - o
  {
    o == off || (o < off && o < 4096 && Reaches(b, o + RecAt(b, o), off))
  }

  /** The entries of the records between `o` and `off`. */
  function Before(b: Block, o: nat, off: nat): seq<DirEnt>
    requires TiledFrom(b, o) && Reaches(b, o, off)
    decreases 4096 - o
  {
    if o == off then [] else Here(b, o) + Before(b, o + RecAt(b, o), off)
  }

  lemma {:induction false} ReachTiled(b: Block, o: nat, off: nat)
    requires TiledFrom(b, o) && Reaches(b, o, off)
    ensures o <= off <= 4096 && TiledFrom(b, off)
    ensures LiveFrom(b, o) == Before(b, o, off) + LiveFrom(b, off)
    decreases 4096 - o
  {
    hide Here, InoAt, RecAt, EntAt;
    if o != off {
      var next := o + RecAt(b, o);
      ReachTiled(b, next, off);
      assert Before(b, o, off) == Here(b, o) + Before(b, next, off);
      assert LiveFrom(b, o) == Here(b, o) + LiveFrom(b, next);
    }
  }

  /** The next record after a reachable one is reachable. */
  lemma {:induction false} ReachNext(b: Block, o: nat, off: nat)
    requires TiledFrom(b, o) && Reaches(b, o, off) && off < 4096
    ensures TiledFrom(b, off) && RecordOk(b, off) && Reaches(b, o, off + RecAt(b, off))
    ensures Before(b, o, off + RecAt(b, off)) == Before(b, o, off) + Here(b, off)
    decreases 4096 - o
  {
    hide Here, InoAt, RecAt, EntAt;
    ReachTiled(b, o, off);
    if o != off {
      ReachNext(b, o + RecAt(b, o), off);
    } else {
      assert Reaches(b, off + RecAt(b, off), off + RecAt(b, off));
    }
  }

  /** Records outside the changed range stay as they are. */
  lemma SameRecord(b: Block, c: Block, o: nat)
    requires RecordOk(b, o) && forall i :: o <= i < o + RecAt(b, o) ==> c[i] == b[i]
    ensures RecordOk(c, o) && RecAt(c, o) == RecAt(b, o) && Here(c, o) == Here(b, o)
  {
    if InoAt(b, o) != 0 {
      assert EntAt(c, o) == EntAt(b, o);
    }
  }

  lemma {:induction false} SameTail(b: Block, c: Block, o: nat)
    requires TiledFrom(b, o) && o <= 4096 && forall i :: o <= i < 4096 ==> c[i] == b[i]
    ensures TiledFrom(c, o) && LiveFrom(c, o) == LiveFrom(b, o)
    decreases 4096 - o
  {
    if o != 4096 {
      SameRecord(b, c, o);
      SameTail(b, c, o + RecAt(b, o));
    }
  }

  /** A block changed only behind `off` has the same records before it. */
  lemma {:induction false} SameHead(b: Block, c: Block, o: nat, off: nat)
    requires TiledFrom(b, o) && Reaches(b, o, off) && forall i :: o <= i < off && i < 4096 ==> c[i] == b[i]
    requires TiledFrom(c, off)
    ensures TiledFrom(c, o) && Reaches(c, o, off) && Before(c, o, off) == Before(b, o, off)
    decreases 4096 - o
  {
    if o != off {
      ReachTiled(b, o + RecAt(b, o), off);
      SameRecord(b, c, o);
      SameHead(b, c, o + RecAt(b, o), off);
    }
  }

  // ---- writing a record ----

  function Align4(v: nat): (r: nat)
    ensures v <= r < v + 4
  {
    v + 3 - (v + 3) % 4
  }

  /** write_dir_entry at offset `o`. */
  function PutEntry(b: Block, o: nat, e: DirEnt, rec: nat): (c: Block)
    requires |e.name| < 256 && o + 8 + |e.name| <= 4096 && e.target.ino < U32_LIMIT && rec < 0x1_0000
    ensures forall i :: 0 <= i < 4096 && !(o <= i < o + 8 + |e.name|) ==> c[i] == b[i]
  {
    var a := W16(W32(b, o, e.target.ino), o + 4, rec)[o + 6 := |e.name|][o + 7 := e.target.ftype];
    a[..o + 8] + e.name + a[o + 8 + |e.name|..]
  }

  lemma PutEntryReads(b: Block, o: nat, e: DirEnt, rec: nat)
    requires |e.name| < 256 && o + 8 + |e.name| <= 4096 && e.target.ino < U32_LIMIT && rec < 0x1_0000
    ensures var c := PutEntry(b, o, e, rec);
      InoAt(c, o) == e.target.ino && RecAt(c, o) == rec && c[o + 6] == |e.name| && EntAt(c, o) == e
  {
    var a1 := W32(b, o, e.target.ino);
    var a2 := W16(a1, o + 4, rec);
    var c := PutEntry(b, o, e, rec);
    assert R32(a2, o) == R32(a1, o);
    assert R32(c, o) == R32(a2, o) && R16(c, o + 4) == R16(a2, o + 4);
    assert c[o + 8..o + 8 + |e.name|] == e.name;
  }

  // ---- a block made of records ----

  /** Entries that can be written one behind the other from `o` on. */
  ghost predicate Fits(es: seq<DirEnt>, o: nat)
    decreases |es|
  {
    es != [] ==>
      && |es[0].name| < 256 && 0 < es[0].target.ino < U32_LIMIT && o + Align4(8 + |es[0].name|) <= 4096
      && Fits(es[1..], o + Align4(8 + |es[0].name|))
  }

  /** The entries one behind the other, the last one reaching to the end of the block. */
  function Packed(b: Block, es: seq<DirEnt>, o: nat): Block
    requires Fits(es, o)
    decreases |es|
  {
    hide PutEntry, Align4;
    if es == [] then b
    else
      var need := Align4(8 + |es[0].name|);
      if |es| == 1 then PutEntry(b, o, es[0], 4096 - o)
      else Packed(PutEntry(b, o, es[0], need), es[1..], o + need)
  }

  /** Such a block is tiled and has exactly these entries. */
  lemma {:induction false} PackedReads(b: Block, es: seq<DirEnt>, o: nat)
    requires Fits(es, o) && es != []
    ensures var c := Packed(b, es, o);
            TiledFrom(c, o) && LiveFrom(c, o) == es && forall i :: 0 <= i < o && i < 4096 ==> c[i] == b[i]
    decreases |es|
  {
    hide PutEntry, Align4, TiledFrom, LiveFrom, InoAt, RecAt, EntAt;
    var need := Align4(8 + |es[0].name|);
    var c := Packed(b, es, o);
    EndTiled(c);
    if |es| == 1 {
      PutEntryReads(b, o, es[0], 4096 - o);
      OneRecord(c, o, es[0]);
    } else {
      var m := PutEntry(b, o, es[0], need);
      PutEntryReads(b, o, es[0], need);
      PackedReads(m, es[1..], o + need);
      SameRecord(m, c, o);
      InUse(m, o);
      InUse(c, o);
      OneRecord(c, o, es[0]);
    }
  }

  /** An unused record. */
  const NOBODY: DirEnt := DirEnt([], Target(0, 0))

  /** What dir_add does to the free space of `avail` bytes at `off`. */
  function Filled(b: Block, off: nat, avail: nat, e: DirEnt): Block
    requires |e.name| < 256 && e.target.ino < U32_LIMIT && Align4(8 + |e.name|) <= avail && off + avail <= 4096
  {
    var need := Align4(8 + |e.name|);
    if avail - need >= 8
    then PutEntry(PutEntry(b, off, e, need), off + need, NOBODY, avail - need)
    else PutEntry(b, off, e, avail)
  }

  /** The free space becomes the new entry, and an unused record if there is room for one. */
  lemma FilledReads(b: Block, off: nat, avail: nat, e: DirEnt)
    requires |e.name| < 256 && 0 < e.target.ino < U32_LIMIT && Align4(8 + |e.name|) <= avail && off + avail <= 4096
    requires TiledFrom(b, off + avail)
    ensures var c := Filled(b, off, avail, e);
      && TiledFrom(c, off) && LiveFrom(c, off) == [e] + LiveFrom(b, off + avail)
      && forall i :: 0 <= i < off ==> c[i] == b[i]
  {
    hide TiledFrom, LiveFrom, EntAt, InoAt, RecAt, PutEntry;
    var need, c := Align4(8 + |e.name|), Filled(b, off, avail, e);
    if avail - need >= 8 {
      var m := PutEntry(b, off, e, need);
      PutEntryReads(b, off, e, need);
      PutEntryReads(m, off + need, NOBODY, avail - need);
      SplitReads(b, m, c, off, need, avail, e);
    } else {
      PutEntryReads(b, off, e, avail);
      WholeReads(b, c, off, avail, e);
    }
  }

  lemma SameFields(b: Block, c: Block, o: nat)
    requires o + 8 <= 4096 && forall i :: o <= i < o + 8 ==> c[i] == b[i]
    ensures InoAt(c, o) == InoAt(b, o) && RecAt(c, o) == RecAt(b, o)
  {
  }

  /** The records in the place of the slot: the entry, and an unused one behind it if it is worth it. */
  /** At `off`, a record of `need` bytes and an unused one behind it, or one of all the bytes. */
  predicate SlotFilled(c: Block, off: nat, avail: nat, need: nat)
    requires off + avail <= 4096
  {
    RecordOk(c, off)
    && if avail - need >= 8
       then RecAt(c, off) == need && InoAt(c, off + need) == 0 && RecAt(c, off + need) == avail - need
       else RecAt(c, off) == avail
  }

  lemma FilledRecords(b: Block, off: nat, avail: nat, e: DirEnt)
    requires |e.name| < 256 && 0 < e.target.ino < U32_LIMIT && Align4(8 + |e.name|) <= avail && off + avail <= 4096
    ensures var c := Filled(b, off, avail, e);
      && SlotFilled(c, off, avail, Align4(8 + |e.name|))
      && forall i :: 0 <= i < 4096 && !(off <= i < off + avail) ==> c[i] == b[i]
  {
    hide PutEntry, EntAt, InoAt, RecAt;
    var need, c := Align4(8 + |e.name|), Filled(b, off, avail, e);
    if avail - need >= 8 {
      var m := PutEntry(b, off, e, need);
      PutEntryReads(b, off, e, need);
      PutEntryReads(m, off + need, NOBODY, avail - need);
      SameFields(m, c, off);
    } else {
      PutEntryReads(b, off, e, avail);
    }
  }

  lemma WholeReads(b: Block, c: Block, off: nat, avail: nat, e: DirEnt)
    requires 8 <= avail && off + avail <= 4096 && TiledFrom(b, off + avail)
    requires RecAt(c, off) == avail && InoAt(c, off) != 0 && 8 + c[off + 6] <= avail && EntAt(c, off) == e
    requires forall i :: 0 <= i < 4096 && !(off <= i < off + avail) ==> c[i] == b[i]
    ensures TiledFrom(c, off) && LiveFrom(c, off) == [e] + LiveFrom(b, off + avail)
  {
    SameTail(b, c, off + avail);
    assert RecordOk(c, off);
    hide TiledFrom, LiveFrom, InoAt, RecAt, EntAt, RecordOk;
    OneRecord(c, off, e);
  }

  lemma SplitReads(b: Block, m: Block, c: Block, off: nat, need: nat, avail: nat, e: DirEnt)
    requires 8 <= need && need + 8 <= avail && off + avail <= 4096 && e.target.ino > 0 && TiledFrom(b, off + avail)
    requires RecAt(m, off) == need && InoAt(m, off) != 0 && 8 + m[off + 6] <= need && EntAt(m, off) == e
    requires InoAt(c, off + need) == 0 && RecAt(c, off + need) == avail - need
    requires forall i :: 0 <= i < 4096 && !(off + need <= i < off + need + 8) ==> c[i] == m[i]
    requires forall i :: 0 <= i < 4096 && !(off <= i < off + need) ==> m[i] == b[i]
    ensures TiledFrom(c, off) && LiveFrom(c, off) == [e] + LiveFrom(b, off + avail)
  {
    assert RecordOk(m, off) && RecordOk(c, off + need);
    hide TiledFrom, LiveFrom, InoAt, RecAt, EntAt, RecordOk;
    SameTail(b, c, off + avail);
    SameRecord(m, c, off);
    FreeRecord(c, off + need);
    assert EntAt(c, off) == e by {
      assert Here(c, off) == Here(m, off);
    }
    hide RecordOk, Here;
    OneRecord(c, off, e);
  }

  lemma FreeRecord(c: Block, o: nat)
    requires RecordOk(c, o) && InoAt(c, o) == 0 && TiledFrom(c, o + RecAt(c, o))
    ensures TiledFrom(c, o) && LiveFrom(c, o) == LiveFrom(c, o + RecAt(c, o))
  {
  }

  lemma OneRecord(c: Block, o: nat, e: DirEnt)
    requires RecordOk(c, o) && InoAt(c, o) != 0 && EntAt(c, o) == e && TiledFrom(c, o + RecAt(c, o))
    ensures TiledFrom(c, o) && LiveFrom(c, o) == [e] + LiveFrom(c, o + RecAt(c, o))
  {
  }

  /** A place where dir_find_slot would put an entry. */
  predicate IsSlot(b: Block, off: nat, avail: nat) {
    || (InoAt(b, 0) == 0 && RecAt(b, 0) == 0 && off == 0 && avail == 4096)
    || (TiledFrom(b, 0) && Reaches(b, 0, off) && off + 8 <= 4096 && InoAt(b, off) == 0 && avail == RecAt(b, off)
       && off + avail <= 4096)
  }

  /** Filling a slot inserts the entry into the block's list, in place. */
  lemma FillInserts(b: Block, off: nat, avail: nat, e: DirEnt) returns (x: seq<DirEnt>, y: seq<DirEnt>)
    requires BlockOk(b) && IsSlot(b, off, avail) && off + avail <= 4096
    requires |e.name| < 256 && 0 < e.target.ino < U32_LIMIT && Align4(8 + |e.name|) <= avail
    ensures var c := Filled(b, off, avail, e);
      BlockOk(c) && Live(b) == x + y && Live(c) == x + [e] + y
  {
    hide Filled, EntAt, Align4, InoAt, RecAt, Here, RecordOk, LiveFrom, Before;
    var c := Filled(b, off, avail, e);
    if TiledFrom(b, 0) && Reaches(b, 0, off) && off + 8 <= 4096 && InoAt(b, off) == 0 && avail == RecAt(b, off) {
      ReachTiled(b, 0, off);
      FreeRecord(b, off);
      FilledReads(b, off, avail, e);
      SameHead(b, c, 0, off);
      ReachTiled(c, 0, off);
      x, y := Before(b, 0, off), LiveFrom(b, off + avail);
    } else {
      NotTiled(b);
      EndTiled(b);
      FilledReads(b, off, avail, e);
      x, y := [], [];
    }
  }

  lemma EndTiled(b: Block)
    ensures TiledFrom(b, 4096) && LiveFrom(b, 4096) == []
  {
  }

  lemma NotTiled(b: Block)
    ensures RecAt(b, 0) == 0 ==> !TiledFrom(b, 0)
  {
  }

  /** dir_del clears the inode number of a record. */
  function Cleared(b: Block, off: nat): (c: Block)
    requires off + 4 <= 4096
    ensures forall i :: 0 <= i < 4096 ==> c[i] == if off <= i < off + 4 then 0 else b[i]
  {
    b[off := 0][off + 1 := 0][off + 2 := 0][off + 3 := 0]
  }

  /** Clearing takes the entry out of the block's list. */
  lemma ClearRemoves(b: Block, off: nat) returns (x: seq<DirEnt>, y: seq<DirEnt>)
    requires TiledFrom(b, 0) && Reaches(b, 0, off) && off < 4096 && RecordOk(b, off) && InoAt(b, off) != 0
    ensures var c := Cleared(b, off);
      BlockOk(c) && Live(b) == x + [EntAt(b, off)] + y && Live(c) == x + y
  {
    assert off + 8 <= 4096;
    hide Cleared, EntAt, InoAt, RecAt, LiveFrom, RecordOk, TiledFrom, Reaches, Before;
    LiveThrough(b, off);
    LiveCleared(b, Cleared(b, off), off);
    x, y := Before(b, 0, off), LiveFrom(b, off + RecAt(b, off));
  }

  lemma LiveThrough(b: Block, off: nat)
    requires TiledFrom(b, 0) && Reaches(b, 0, off) && off < 4096 && RecordOk(b, off) && InoAt(b, off) != 0
    ensures off + 8 + b[off + 6] <= 4096 && TiledFrom(b, off + RecAt(b, off))
    ensures LiveFrom(b, 0) == Before(b, 0, off) + [EntAt(b, off)] + LiveFrom(b, off + RecAt(b, off))
  {
    InUse(b, off);
    hide EntAt, InoAt, RecAt, LiveFrom, Here, RecordOk, TiledFrom, Before, Reaches;
    ReachNext(b, 0, off);
    ReachTiled(b, 0, off + RecAt(b, off));
  }

  lemma LiveCleared(b: Block, c: Block, off: nat)
    requires TiledFrom(b, 0) && Reaches(b, 0, off) && off < 4096 && RecordOk(b, off) && c == Cleared(b, off)
      && TiledFrom(b, off + RecAt(b, off))
    ensures TiledFrom(c, 0) && LiveFrom(c, 0) == Before(b, 0, off) + LiveFrom(b, off + RecAt(b, off))
  {
    assert off + 8 <= 4096 && off + RecAt(b, off) <= 4096 && off + 4 <= off + RecAt(b, off);
    hide Cleared, EntAt, InoAt, RecAt, LiveFrom, Here, RecordOk, TiledFrom, Before, Reaches;
    ClearedRecord(b, off);
    SameTail(b, c, off + RecAt(b, off));
    FreeRecord(c, off);
    SameHead(b, c, 0, off);
    ReachTiled(c, 0, off);
  }

  lemma InUse(b: Block, off: nat)
    requires RecordOk(b, off) && InoAt(b, off) != 0
    ensures off + 8 + b[off + 6] <= 4096 && Here(b, off) == [EntAt(b, off)]
  {
  }

  lemma ClearedRecord(b: Block, off: nat)
    requires RecordOk(b, off)
    ensures var c := Cleared(b, off); RecordOk(c, off) && RecAt(c, off) == RecAt(b, off) && InoAt(c, off) == 0
  {
  }
}
