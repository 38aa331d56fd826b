/** The commands on the files of one directory: write_file, read_file, touch, rm and mv, each proved
    to do to the catalog of the directory what its name says. */
module NamedFiles {
  import opened Bytes
  import opened Collections
  import opened Wrappers
  import opened Disk
  import Extents
  import opened Volume
  import opened Inodes
  import opened InodeAlloc
  import opened Files
  import opened FileSystem
  import opened FreeSpace
  import opened FileWrite
  import opened Directory
  import opened DirectoryOps
  import opened DirCatalog
  import opened DirSteps

  // ---- the specification ----

  datatype Command =
    | Write(name: seq<Byte>, data: seq<Byte>)
    | Touch(name: seq<Byte>)
    | Remove(name: seq<Byte>)
    | Move(name: seq<Byte>, to: seq<Byte>)

  predicate Known(c: Catalog, name: seq<Byte>) { name in c.files || name in c.others }

  /** A lack of blocks, inodes or extents. */
  predicate IsLack(err: Option<FsErr>) { err == Some(NoSpace) || err == Some(Unsupported) }

  /** What a command may answer, and the catalog it then leaves. */
  ghost predicate Allowed(c: Catalog, cmd: Command, err: Option<FsErr>, now: Catalog) {
    match cmd
    case Write(name, data) =>
      if name in c.others then err == Some(IsDir) && now == c
      else if err == None then now == Stored(c, name, data)
      else IsLack(err) && (now == Stored(c, name, []) || (now == c && name !in c.files))
    case Touch(name) =>
      if Known(c, name) then err == None && now == c
      else if err == None then now == Stored(c, name, [])
      else IsLack(err) && now == c
    case Remove(name) =>
      if name in c.files then err == None && now == Dropped(c, name)
      else now == c && err == Some(if name in c.others then IsDir else NotFound)
    case Move(name, to) =>
      if !Known(c, name) then err == Some(NotFound) && now == c
      else if Known(c, to) then err == Some(Exists) && now == c
      else if err == None then now == Renamed(c, name, to)
      else IsLack(err) && now == c
  }

  predicate Names(cmd: Command, name: seq<Byte>) { cmd.name == name || (cmd.Move? && cmd.to == name) }

  /** A run: command `i` takes catalog `i` to catalog `i + 1`. */
  ghost predicate IsRun(cs: seq<Catalog>, cmds: seq<Command>, errs: seq<Option<FsErr>>) {
    |errs| == |cmds| && |cs| == |cmds| + 1
      && forall i :: 0 <= i < |cmds| ==> Allowed(cs[i], cmds[i], errs[i], cs[i + 1])
  }

  /** Commands leave the files they do not name. */
  lemma {:induction false} UnnamedKept(cs: seq<Catalog>, cmds: seq<Command>, errs: seq<Option<FsErr>>, name: seq<Byte>)
    requires IsRun(cs, cmds, errs) && forall i :: 0 <= i < |cmds| ==> !Names(cmds[i], name)
    ensures var first, last := cs[0].files, cs[|cmds|].files;
            (name in last <==> name in first) && (name in first ==> last[name] == first[name])
  {
    if cmds != [] {
      assert Allowed(cs[0], cmds[0], errs[0], cs[1]);
      forall i | 0 <= i < |cmds[1..]|
        ensures Allowed(cs[1..][i], cmds[1..][i], errs[1..][i], cs[1..][i + 1]) && !Names(cmds[1..][i], name)
      {
        assert Allowed(cs[i + 1], cmds[i + 1], errs[i + 1], cs[i + 2]) && !Names(cmds[i + 1], name);
      }
      UnnamedKept(cs[1..], cmds[1..], errs[1..], name);
    }
  }

  /** At any time a file holds what the last command that named it and succeeded wrote to it. */
  lemma LastWriteHolds(cs: seq<Catalog>, cmds: seq<Command>, errs: seq<Option<FsErr>>, k: nat, data: seq<Byte>)
    requires IsRun(cs, cmds, errs) && k < |cmds| && cmds[k] == Write(cmds[k].name, data) && errs[k] == None
    requires forall i :: k < i < |cmds| ==> !Names(cmds[i], cmds[k].name)
    ensures cmds[k].name in cs[|cmds|].files && cs[|cmds|].files[cmds[k].name] == data
  {
    assert Allowed(cs[k], cmds[k], errs[k], cs[k + 1]);
    var ds, rest, es := cs[k + 1..], cmds[k + 1..], errs[k + 1..];
    forall i | 0 <= i < |rest|
      ensures Allowed(ds[i], rest[i], es[i], ds[i + 1]) && !Names(rest[i], cmds[k].name)
    {
      assert Allowed(cs[k + 1 + i], cmds[k + 1 + i], errs[k + 1 + i], cs[k + 2 + i])
        && !Names(cmds[k + 1 + i], cmds[k].name);
    }
    UnnamedKept(ds, rest, es, cmds[k].name);
  }

  // ---- the answer of a command ----

  /** What dir_add will answer for a new name. */
  ghost function AddAnswer(d: Disk, geo: Geometry, files: FileMap, dir: nat, name: seq<Byte>): Option<FsErr> {
    AddOutcome(d, geo, OldBlocks(files, dir), NeedFor(name))
  }

  /** What writing `n` blocks will answer when these blocks are in use and not about to be freed. */
  ghost function DataAnswer(used: set<nat>, geo: Geometry, n: nat): Option<FsErr> { Outcome(FreeList(used, geo.total),
                            n) }

  /** The blocks in use after a name was added. */
  ghost function UsedThen(d: Disk, geo: Geometry, files: FileMap, dir: nat, name: seq<Byte>): set<nat> {
    UsedSet(d, geo) + Elems(AddTakes(d, geo, OldBlocks(files, dir), NeedFor(name)))
  }

  /** A new file is refused: no inode is free, or its name finds no place in the directory. */
  ghost function NewAnswer(d: Disk, geo: Geometry, files: FileMap, dir: nat, name: seq<Byte>): Option<FsErr> {
    if NoInodeLeft(d, geo) then Some(NoSpace) else AddAnswer(d, geo, files, dir, name)
  }

  /** The answer of a command and the catalog it leaves. Allocation takes the lowest free inode and
      blocks, so both are known from the disk the command starts with. */
  ghost function Answer(d: Disk, geo: Geometry, files: FileMap, dir: nat, c: Catalog, cmd: Command): (Option<FsErr>,
                        Catalog) {
    var view := ViewOf(d, files, dir);
    match cmd
    case Write(name, data) =>
      if name in c.others then (Some(IsDir), c)
      else if name in c.files then
        var mine := if IsFile(view, name) then Elems(OldBlocks(files, view[name].ino)) else {};
        Wrote(c, name, data, DataAnswer(UsedSet(d, geo) - mine, geo, NumBlocks(|data|)))
      else if NewAnswer(d, geo, files, dir, name).Some? then (NewAnswer(d, geo, files, dir, name), c)
      else Wrote(c, name, data, DataAnswer(UsedThen(d, geo, files, dir, name), geo, NumBlocks(|data|)))
    case Touch(name) =>
      if Known(c, name) then (None, c)
      else
        var err := NewAnswer(d, geo, files, dir, name);
        (err, if err.None? then Stored(c, name, []) else c)
    case Remove(name) =>
      if name in c.files then (None, Dropped(c, name)) else (Some(if name in c.others then IsDir else NotFound), c)
    case Move(name, to) =>
      if !Known(c, name) then (Some(NotFound), c)
      else if Known(c, to) then (Some(Exists), c)
      else
        var err := AddAnswer(d, geo, files, dir, to);
        (err, if err.None? then Renamed(c, name, to) else c)
  }

  function Wrote(c: Catalog, name: seq<Byte>, data: seq<Byte>, err: Option<FsErr>): (Option<FsErr>, Catalog) {
    (err, Stored(c, name, if err.None? then data else []))
  }

  /** The answer is one of those the specification allows. */
  lemma AnswerAllowed(d: Disk, geo: Geometry, files: FileMap, dir: nat, c: Catalog, cmd: Command)
    ensures var a := Answer(d, geo, files, dir, c, cmd); Allowed(c, cmd, a.0, a.1)
  {
    hide UsedSet, FreeList, Extents.RunsOf, RoomIn, NoInodeLeft, ViewOf, Stored, Dropped, Renamed, NeedFor, Elems;
  }

  // ---- inodes no name leads to ----

  /** Inode `g` has blocks and is neither the directory nor a file of it. */
  ghost predicate Shielded(d: Disk, files: FileMap, dir: nat, g: nat) {
    g in files && g != dir
      && forall name :: IsFile(ViewOf(d, files, dir), name) ==> ViewOf(d, files, dir)[name].ino != g
  }

  /** If it was shielded, it still is, with the same blocks, and none of them was written. */
  ghost predicate ShieldHolds(d: Disk, e: Disk, files: FileMap, after: FileMap, dir: nat, g: nat, a: set<nat>,
                              b: set<nat>) {
    Shielded(d, files, dir, g) ==> Shielded(e, after, dir, g) && after[g] == files[g] && Avoids(a, b, Elems(files[g]))
  }

  /** Every file of the second view was one of the first, or is new. */
  ghost predicate NoNewTargets(view: DirMap, now: DirMap, files: FileMap) {
    forall name :: IsFile(now, name) ==> now[name].ino !in files || IsTarget(view, now[name].ino)
  }

  ghost predicate IsTarget(view: DirMap, ino: nat) { exists name :: IsFile(view, name) && view[name].ino == ino }

  /** `g`, if it is neither the directory nor `ino`, keeps its blocks, and none of them was written. */
  ghost predicate Clear(files: FileMap, after: FileMap, dir: nat, ino: nat, g: nat, a: set<nat>, b: set<nat>) {
    g in files && g != dir && g != ino ==> g in after && after[g] == files[g] && Avoids(a, b, Elems(files[g]))
  }

  lemma ClearBy(files: FileMap, after: FileMap, dir: nat, ino: nat, g: nat, a: set<nat>, b: set<nat>, i: nat)
    requires Avoids(a, b, Kept(files, i)) && i in {dir, ino}
      && (SameBut(files, after, dir) || SameBut(files, after, ino))
    ensures Clear(files, after, dir, ino, g, a, b)
  {
    if g in files && g != i {
      forall x | x in Elems(files[g])
        ensures x in Kept(files, i)
      {
      }
      AvoidsLess(a, b, Kept(files, i), Elems(files[g]));
    }
  }

  lemma ClearTrans(files: FileMap, mid: FileMap, after: FileMap, dir: nat, ino: nat, g: nat, a: set<nat>, b: set<nat>,
                   e: set<nat>)
    requires Clear(files, mid, dir, ino, g, a, b) && Clear(mid, after, dir, ino, g, b, e)
    ensures Clear(files, after, dir, ino, g, a, e)
  {
    if g in files && g != dir && g != ino {
      AvoidsTrans(a, b, e, Elems(files[g]));
    }
  }

  lemma ShieldBy(d: Disk, e: Disk, files: FileMap, after: FileMap, dir: nat, ino: nat, g: nat, a: set<nat>, b: set<nat>)
    requires Clear(files, after, dir, ino, g, a, b)
    requires ino !in files || ino == dir || IsTarget(ViewOf(d, files, dir), ino)
    requires NoNewTargets(ViewOf(d, files, dir), ViewOf(e, after, dir), files)
    ensures ShieldHolds(d, e, files, after, dir, g, a, b)
  {
    hide ViewOf, Avoids, Elems;
  }

  lemma SameTargets(view: DirMap, files: FileMap)
    ensures NoNewTargets(view, view, files)
  {
    forall name | IsFile(view, name)
      ensures IsTarget(view, view[name].ino)
    {
    }
  }

  lemma MoreTargets(view: DirMap, files: FileMap, name: seq<Byte>, t: Target)
    requires t.ino !in files || t.ftype != FT_FILE || IsTarget(view, t.ino)
    ensures NoNewTargets(view, view[name := t], files)
  {
    SameTargets(view, files);
    var now := view[name := t];
    forall a | IsFile(now, a) && a != name
      ensures IsTarget(view, now[a].ino)
    {
      assert IsFile(view, a);
    }
  }

  lemma FewerTargets(view: DirMap, now: DirMap, files: FileMap, name: seq<Byte>)
    requires NoNewTargets(view, now, files)
    ensures NoNewTargets(view, now - {name}, files)
  {
  }

  lemma ShieldSame(d: Disk, files: FileMap, dir: nat, g: nat, a: set<nat>)
    ensures ShieldHolds(d, d, files, files, dir, g, a, a)
  {
    hide ViewOf, Elems;
    if Shielded(d, files, dir, g) {
      AvoidsSame(a, Elems(files[g]));
    }
  }

  // ---- write_file ----

  lemma Sound(d: Disk, geo: Geometry, csum: bool, files: FileMap, dir: nat, c: Catalog)
    requires Represents(d, geo, csum, files, dir, c)
    ensures DirState(d, geo, csum, files, dir) && dir in files && OldBlocks(files, dir) == files[dir]
  {
    StateFs(d, geo, csum, files, dir);
  }

  /** A new file: alloc_inode, dir_add, then the contents. */
  method Create(v: Device, dir: nat, name: seq<Byte>, data: seq<Byte>, ghost files: FileMap, ghost c: Catalog,
                ghost g: nat)
    returns (err: Option<FsErr>, ghost after: FileMap, ghost now: Catalog)
    requires v.Valid() && Represents(v.d, v.geo, v.csum, files, dir, c) && name !in ViewOf(v.d, files, dir)
    requires |name| < 256 && |data| < U32_LIMIT && !Known(c, name)
    modifies v`d, v`log
    ensures v.Valid() && Represents(v.d, v.geo, v.csum, after, dir, now)
    ensures (err, now) == Answer(old(v.d), v.geo, files, dir, c, Write(name, data))
    ensures ShieldHolds(old(v.d), v.d, files, after, dir, g, BlocksOf(old(v.log)), BlocksOf(v.log))
    ensures Spent(BlocksOf(old(v.log)), BlocksOf(v.log), NumBlocks(|data|) + 5)
    ensures NewAnswer(old(v.d), v.geo, files, dir, name).Some? ==>
              NewFailed(old(v.d), v.d, v.geo, files, ViewOf(old(v.d), files, dir))
  {
    hide DirState, ViewOf, Spared, FileIs, Represents, InoUsed, IsIno, Overwrite, Stored, BlocksOf, UsedSet, Elems,
         AddOutcome, AddTakes, Outcome, FreeList, NoInodeLeft, Avoids, Kept, OldBlocks, FileKept, NeedFor, SameBut,
         ShieldHolds, Clear, NoNewTargets, IsTarget, Spent, MarksKept, MarkGained;
    ghost var d, l0 := v.d, BlocksOf(v.log);
    Sound(d, v.geo, v.csum, files, dir, c);
    ShieldSame(d, files, dir, g, l0);
    var got := NewIno(v, dir, files);
    SpentMore(l0, BlocksOf(v.log), 1, NumBlocks(|data|) + 5);
    if got.Err? {
      return Some(NoSpace), files, c;
    }
    var ino := got.value;
    ghost var m, l1 := v.d, BlocksOf(v.log);
    AddSame(d, m, v.geo, files[dir], dir, NeedFor(name));
    SameButSame(files, dir);
    ClearBy(files, files, dir, ino, g, l0, l1, dir);
    ghost var mid;
    err, mid := AddName(v, dir, name, Target(ino, FT_FILE), files, ino);
    ghost var f, l2 := v.d, BlocksOf(v.log);
    SparedMore(m, f, files, mid, dir, ino);
    SparedTrans(d, m, f, files, files, mid, dir, ino);
    ClearBy(files, mid, dir, ino, g, l1, l2, dir);
    ClearTrans(files, files, mid, dir, ino, g, l0, l1, l2);
    SpentTrans(l0, l1, l2, 1, 3);
    if err.Some? {
      SpentMore(l0, l2, 4, NumBlocks(|data|) + 5);
      Loses(d, m, m, f, v.geo, v.csum, files, dir, c, ino);
      NothingShown(d, f, v.geo, v.csum, files, mid, dir, ino, c);
      SameTargets(ViewOf(d, files, dir), files);
      ShieldBy(d, f, files, mid, dir, ino, g, l0, l2);
      return err, mid, c;
    }
    NotInMap(mid, ino);
    assert UsedSet(f, v.geo) - {} == UsedSet(f, v.geo) == UsedThen(d, v.geo, files, dir, name);
    err, after := Rewrite(v, dir, ino, false, data, mid);
    SpentTrans(l0, l2, BlocksOf(v.log), 4, NumBlocks(|data|) + 1);
    SparedTrans(d, f, v.d, files, mid, after, dir, ino);
    ClearBy(mid, after, dir, ino, g, l2, BlocksOf(v.log), ino);
    ClearTrans(files, mid, after, dir, ino, g, l0, l2, BlocksOf(v.log));
    StoredShown(d, v.d, v.geo, v.csum, files, after, dir, ino, c, name, if err.None? then data else []);
    MoreTargets(ViewOf(d, files, dir), files, name, Target(ino, FT_FILE));
    ShieldBy(d, v.d, files, after, dir, ino, g, l0, BlocksOf(v.log));
    now := Stored(c, name, if err.None? then data else []);
  }

  /** What a command leaves that could not make its new file: nothing changed if no inode was free; else
      one inode is lost. */
  ghost predicate NewFailed(d: Disk, e: Disk, geo: Geometry, files: FileMap, view: DirMap) {
    if NoInodeLeft(d, geo) then e == d else InodeLost(d, e, geo, files, view)
  }

  lemma Loses(d: Disk, m: Disk, f: Disk, e: Disk, geo: Geometry, csum: bool, files: FileMap, dir: nat, c: Catalog,
              ino: nat)
    requires Represents(d, geo, csum, files, dir, c) && IsIno(geo, ino) && !InoUsed(d, ino) && ino !in files
    requires MarkGained(d, m, geo, ino) && (m == f || MarksKept(m, f, geo)) && MarksKept(f, e, geo)
    ensures InodeLost(d, e, geo, files, ViewOf(d, files, dir))
  {
    hide ViewOf, DirState, FileIs, InoUsed, IsIno, MarksKept, MarkGained;
    if m == f {
      GainedOnce(d, m, e, geo, ino);
    } else {
      GainedThen(d, m, f, e, geo, ino);
    }
    var view := ViewOf(d, files, dir);
    forall name | IsFile(view, name)
      ensures view[name].ino != ino
    {
      InFiles(d, files, dir, view[name].ino, c.files[name]);
    }
    assert LostOne(d, e, geo, files, view, ino);
  }

  lemma GainedOnce(d: Disk, m: Disk, e: Disk, geo: Geometry, ino: nat)
    requires MarkGained(d, m, geo, ino) && MarksKept(m, e, geo)
    ensures MarkGained(d, e, geo, ino)
  {
    hide InoUsed, IsIno;
  }

  lemma SameButSame(files: FileMap, x: nat)
    ensures SameBut(files, files, x)
  {
  }

  /** A new file has no blocks to release. */
  lemma NotInMap(files: FileMap, ino: nat)
    requires ino !in files
    ensures Elems(OldBlocks(files, ino)) == {}
  {
  }

  /** The names are the same, and the contents of the named file went to the blocks they had to. */
  ghost predicate Refilled(d: Disk, e: Disk, geo: Geometry, files: FileMap, after: FileMap, dir: nat, name: seq<Byte>,
                           n: nat, err: Option<FsErr>) {
    var view := ViewOf(d, files, dir);
    ViewOf(e, after, dir) == view && name in view && Placed(d, e, geo, files, after, view[name].ino, n, err)
      && MarksKept(d, e, geo)
  }

  /** write_file in a directory. */
  method WriteFile(v: Device, dir: nat, name: seq<Byte>, data: seq<Byte>, ghost files: FileMap, ghost c: Catalog,
                   ghost g: nat)
    returns (err: Option<FsErr>, ghost after: FileMap, ghost now: Catalog)
    requires v.Valid() && Represents(v.d, v.geo, v.csum, files, dir, c) && |name| < 256 && |data| < U32_LIMIT
    modifies v`d, v`log
    ensures v.Valid() && Represents(v.d, v.geo, v.csum, after, dir, now)
    ensures (err, now) == Answer(old(v.d), v.geo, files, dir, c, Write(name, data))
      && Allowed(c, Write(name, data), err, now)
    ensures ShieldHolds(old(v.d), v.d, files, after, dir, g, BlocksOf(old(v.log)), BlocksOf(v.log))
    ensures name in c.files ==> Refilled(old(v.d), v.d, v.geo, files, after, dir, name, NumBlocks(|data|), err)
    ensures Spent(BlocksOf(old(v.log)), BlocksOf(v.log), NumBlocks(|data|) + 5)
    ensures !Known(c, name) && NewAnswer(old(v.d), v.geo, files, dir, name).Some? ==>
              NewFailed(old(v.d), v.d, v.geo, files, ViewOf(old(v.d), files, dir))
  {
    hide DirState, ViewOf, Spared, FileIs, Represents, InoUsed, IsIno, Overwrite, Stored, BlocksOf, UsedSet, Elems,
         AddOutcome, AddTakes, Outcome, FreeList, NoInodeLeft, Avoids, Kept, OldBlocks, FileKept, NeedFor, SameBut,
         ShieldHolds, Clear, NoNewTargets, IsTarget, Allowed, NewAnswer, Placed, Spent, NewFailed, MarksKept;
    ghost var d, l0 := v.d, BlocksOf(v.log);
    SpentSame(l0, NumBlocks(|data|) + 5);
    AnswerAllowed(d, v.geo, files, dir, c, Write(name, data));
    Sound(d, v.geo, v.csum, files, dir, c);
    ShieldSame(d, files, dir, g, l0);
    ContentsOf(d, v.geo, v.csum, files, dir, c, name);
    var t := Find(v, dir, name, files);
    if t.Err? {
      err, after, now := Create(v, dir, name, data, files, c, g);
      return;
    }
    if t.value.ftype != FT_FILE {
      return Some(IsDir), files, c;
    }
    var ino := t.value.ino;
    FileInUse(d, v.geo, v.csum, files, dir, ino, c.files[name]);
    err, after := Rewrite(v, dir, ino, true, data, files);
    SpentMore(l0, BlocksOf(v.log), NumBlocks(|data|) + 1, NumBlocks(|data|) + 5);
    SameEntry(ViewOf(d, files, dir), name);
    StoredShown(d, v.d, v.geo, v.csum, files, after, dir, ino, c, name, if err.None? then data else []);
    ClearBy(files, after, dir, ino, g, l0, BlocksOf(v.log), ino);
    HasTarget(ViewOf(d, files, dir), name);
    SameTargets(ViewOf(d, files, dir), files);
    ShieldBy(d, v.d, files, after, dir, ino, g, l0, BlocksOf(v.log));
    now := Stored(c, name, if err.None? then data else []);
  }

  lemma HasTarget(view: DirMap, name: seq<Byte>)
    requires IsFile(view, name)
    ensures IsTarget(view, view[name].ino)
  {
  }

  lemma FileInUse(d: Disk, geo: Geometry, csum: bool, files: FileMap, dir: nat, ino: nat, data: seq<Byte>)
    requires DirState(d, geo, csum, files, dir) && FileIs(d, files, dir, ino, data)
    ensures ino in files && ino != dir && IsIno(geo, ino) && ino < U32_LIMIT && InoUsed(d, ino)
    ensures FileHolds(d, ino, files[ino], data) && InodeOk(d, geo, csum, ino, files[ino]) && Accounting(d, geo)
    ensures IsRegular(InodeAt(d, ino))
  {
    StateFs(d, geo, csum, files, dir);
    FsFile(d, geo, csum, files, ino);
    hide Accounting, FsOk, DirState, InodeAt, InodeBlock;
  }

  lemma SameEntry(view: DirMap, name: seq<Byte>)
    requires name in view && view[name].ftype == FT_FILE
    ensures view[name := Target(view[name].ino, FT_FILE)] == view
  {
  }

  // ---- read_file ----

  /** What read_file returns for this buffer. */
  ghost predicate ReadsAs(c: Catalog, name: seq<Byte>, r: Result<nat, FsErr>, before: seq<Byte>, now: seq<Byte>) {
    if name in c.files then
      var n := Least(|c.files[name]|, |before|);
      |now| == |before| && r == Ok(n) && now[..n] == c.files[name][..n] && now[n..] == before[n..]
    else now == before && r == Err(if name in c.others then IsDir else NotFound)
  }

  /** read_file in a directory: the contents, cut to the buffer. */
  method ReadFile(v: Device, dir: nat, name: seq<Byte>, out: array<Byte>, ghost files: FileMap, ghost c: Catalog)
    returns (r: Result<nat, FsErr>)
    requires Represents(v.d, v.geo, v.csum, files, dir, c)
    modifies out
    ensures ReadsAs(c, name, r, old(out[..]), out[..])
  {
    hide DirState, ViewOf, FileIs, FileHolds, Represents, Accounting, InodeOk, InodeAt, InodeBlock, IsRegular,
         InoUsed, IsIno, OldBlocks;
    Sound(v.d, v.geo, v.csum, files, dir, c);
    ContentsOf(v.d, v.geo, v.csum, files, dir, c, name);
    var t := Find(v, dir, name, files);
    if t.Err? {
      return Err(t.error);
    }
    if t.value.ftype != FT_FILE {
      return Err(IsDir);
    }
    FileInUse(v.d, v.geo, v.csum, files, dir, t.value.ino, c.files[name]);
    r := ReadFileData(v, t.value.ino, out, files[t.value.ino], c.files[name]);
  }

  // ---- touch ----

  /** The new name leads to a new inode without blocks; only the directory may have got a block, and no
      other inode came into use. */
  ghost predicate Touched(d: Disk, e: Disk, geo: Geometry, files: FileMap, after: FileMap, dir: nat, name: seq<Byte>) {
    var view := ViewOf(e, after, dir);
    && name in view && view == ViewOf(d, files, dir)[name := Target(view[name].ino, FT_FILE)]
    && NewFile(files, after, dir, view[name].ino) && MarkGained(d, e, geo, view[name].ino)
    && UsedSet(e, geo) == UsedThen(d, geo, files, dir, name)
  }

  ghost predicate NewFile(files: FileMap, after: FileMap, dir: nat, ino: nat) {
    && ino !in files && ino in after && after[ino] == [] && dir in files && dir in after
    && |after[dir]| <= |files[dir]| + 1 && forall j :: j in files && j != dir ==> j in after && after[j] == files[j]
  }

  lemma NewOne(files: FileMap, mid: FileMap, after: FileMap, dir: nat, ino: nat)
    requires ino !in files && dir in files && mid == files[ino := []] && SameBut(mid, after, dir)
    requires dir in after && |after[dir]| <= |mid[dir]| + 1
    ensures NewFile(files, after, dir, ino)
  {
  }

  lemma GainedThen(d: Disk, m: Disk, f: Disk, e: Disk, geo: Geometry, ino: nat)
    requires MarkGained(d, m, geo, ino) && MarksKept(m, f, geo) && MarksKept(f, e, geo)
    ensures MarkGained(d, e, geo, ino)
  {
    hide InoUsed, IsIno;
    forall j: nat | IsIno(geo, j)
      ensures InoUsed(e, j) <==> InoUsed(d, j) || j == ino
    {
      assert InoUsed(e, j) <==> InoUsed(f, j);
      assert InoUsed(f, j) <==> InoUsed(m, j);
    }
  }

  /** touch: an empty file under a new name. */
  method TouchFile(v: Device, dir: nat, name: seq<Byte>, ghost files: FileMap, ghost c: Catalog, ghost g: nat)
    returns (err: Option<FsErr>, ghost after: FileMap, ghost now: Catalog)
    requires v.Valid() && Represents(v.d, v.geo, v.csum, files, dir, c) && |name| < 256
    modifies v`d, v`log
    ensures v.Valid() && Represents(v.d, v.geo, v.csum, after, dir, now)
    ensures (err, now) == Answer(old(v.d), v.geo, files, dir, c, Touch(name)) && Allowed(c, Touch(name), err, now)
    ensures ShieldHolds(old(v.d), v.d, files, after, dir, g, BlocksOf(old(v.log)), BlocksOf(v.log))
    ensures err.None? && !Known(c, name) ==> Touched(old(v.d), v.d, v.geo, files, after, dir, name)
    ensures Spent(BlocksOf(old(v.log)), BlocksOf(v.log), 5)
    ensures err.Some? ==> NewFailed(old(v.d), v.d, v.geo, files, ViewOf(old(v.d), files, dir))
  {
    hide DirState, ViewOf, Spared, FileIs, Represents, InoUsed, IsIno, Overwrite, Stored, BlocksOf, UsedSet, Elems,
         AddOutcome, AddTakes, NoInodeLeft, Avoids, Kept, OldBlocks, FileKept, NeedFor, SameBut, ShieldHolds, Clear,
         NoNewTargets, IsTarget, Allowed, MarksKept, MarkGained, Spent;
    ghost var d, l0 := v.d, BlocksOf(v.log);
    SpentSame(l0, 5);
    AnswerAllowed(d, v.geo, files, dir, c, Touch(name));
    Sound(d, v.geo, v.csum, files, dir, c);
    ShieldSame(d, files, dir, g, l0);
    ContentsOf(d, v.geo, v.csum, files, dir, c, name);
    var t := Find(v, dir, name, files);
    if t.Ok? {
      return None, files, c;
    }
    var got := NewIno(v, dir, files);
    SpentMore(l0, BlocksOf(v.log), 1, 5);
    if got.Err? {
      return Some(NoSpace), files, c;
    }
    var ino := got.value;
    ghost var m, l1 := v.d, BlocksOf(v.log);
    SameButSame(files, dir);
    ClearBy(files, files, dir, ino, g, l0, l1, dir);
    AddSame(d, m, v.geo, files[dir], dir, NeedFor(name));
    ghost var mid := SaveEmpty(v, dir, ino, files);
    ghost var f, l2 := v.d, BlocksOf(v.log);
    SparedTrans(d, m, f, files, files, mid, dir, ino);
    ClearBy(files, mid, dir, ino, g, l1, l2, ino);
    ClearTrans(files, files, mid, dir, ino, g, l0, l1, l2);
    AddSame(m, f, v.geo, files[dir], dir, NeedFor(name));
    SameDir(files, mid, dir, ino);
    err, after := AddName(v, dir, name, Target(ino, FT_FILE), mid, ino);
    ghost var e, l3 := v.d, BlocksOf(v.log);
    SparedMore(f, e, mid, after, dir, ino);
    SparedTrans(d, f, e, files, mid, after, dir, ino);
    ClearBy(mid, after, dir, ino, g, l2, l3, dir);
    ClearTrans(files, mid, after, dir, ino, g, l0, l2, l3);
    SpentTrans(l0, l1, l2, 1, 1);
    SpentTrans(l0, l2, l3, 2, 3);
    if err.Some? {
      Loses(d, m, f, e, v.geo, v.csum, files, dir, c, ino);
      NothingShown(d, e, v.geo, v.csum, files, after, dir, ino, c);
      SameTargets(ViewOf(d, files, dir), files);
      ShieldBy(d, e, files, after, dir, ino, g, l0, l3);
      return err, after, c;
    }
    FileStays(f, e, mid, after, dir, dir, ino, []);
    StoredShown(d, e, v.geo, v.csum, files, after, dir, ino, c, name, []);
    MoreTargets(ViewOf(d, files, dir), files, name, Target(ino, FT_FILE));
    ShieldBy(d, e, files, after, dir, ino, g, l0, l3);
    GainedThen(d, m, f, e, v.geo, ino);
    NewOne(files, mid, after, dir, ino);
    now := Stored(c, name, []);
  }

  lemma SameDir(files: FileMap, mid: FileMap, dir: nat, ino: nat)
    requires SameBut(files, mid, ino) && dir in files && dir != ino
    ensures dir in mid && mid[dir] == files[dir]
  {
  }

  // ---- rm ----

  /** The file's blocks and its inode are free, and nothing else is. */
  ghost predicate Released(d: Disk, e: Disk, geo: Geometry, files: FileMap, view: DirMap, name: seq<Byte>) {
    && name in view && view[name].ino in files && !InoUsed(e, view[name].ino)
    && UsedSet(e, geo) == UsedSet(d, geo) - Elems(files[view[name].ino])
  }

  /** rm in a directory. The blocks and the inode of the file are free again. */
  method RemoveFile(v: Device, dir: nat, name: seq<Byte>, ghost files: FileMap, ghost c: Catalog, ghost g: nat)
    returns (err: Option<FsErr>, ghost after: FileMap, ghost now: Catalog)
    requires v.Valid() && Represents(v.d, v.geo, v.csum, files, dir, c)
    modifies v`d, v`log
    ensures v.Valid() && Represents(v.d, v.geo, v.csum, after, dir, now)
    ensures (err, now) == Answer(old(v.d), v.geo, files, dir, c, Remove(name)) && Allowed(c, Remove(name), err, now)
    ensures ShieldHolds(old(v.d), v.d, files, after, dir, g, BlocksOf(old(v.log)), BlocksOf(v.log))
    ensures err.Some? ==> v.d == old(v.d)
    ensures err.None? ==> Released(old(v.d), v.d, v.geo, files, ViewOf(old(v.d), files, dir), name)
    ensures Spent(BlocksOf(old(v.log)), BlocksOf(v.log), 2)
  {
    hide DirState, ViewOf, Spared, FileIs, Represents, InoUsed, IsIno, Overwrite, Dropped, UsedSet, Elems, BlocksOf,
         Avoids, Kept, OldBlocks, SameBut, ShieldHolds, Clear, NoNewTargets, IsTarget, Allowed, NewAnswer, AddAnswer,
         MarksKept, Spent;
    ghost var d, l0 := v.d, BlocksOf(v.log);
    SpentSame(l0, 2);
    AnswerAllowed(d, v.geo, files, dir, c, Remove(name));
    Sound(d, v.geo, v.csum, files, dir, c);
    ShieldSame(d, files, dir, g, l0);
    ContentsOf(d, v.geo, v.csum, files, dir, c, name);
    var t := Find(v, dir, name, files);
    if t.Err? {
      return Some(t.error), files, c;
    }
    if t.value.ftype != FT_FILE {
      return Some(IsDir), files, c;
    }
    var ino := t.value.ino;
    FileInUse(d, v.geo, v.csum, files, dir, ino, c.files[name]);
    after := files - {ino};
    err := Discard(v, dir, ino, files);
    SpentMore(l0, BlocksOf(v.log), 1, 2);
    if err.Some? {
      return Some(Io), files, c;
    }
    ghost var m, l1 := v.d, BlocksOf(v.log);
    WithoutOne(files, ino);
    ClearBy(files, after, dir, ino, g, l0, l1, ino);
    err := DropName(v, dir, name, after);
    SpentTrans(l0, l1, BlocksOf(v.log), 1, 1);
    SparedMore(m, v.d, after, after, dir, ino);
    SparedTrans(d, m, v.d, files, after, after, dir, ino);
    SameButSame(after, dir);
    ClearBy(after, after, dir, ino, g, l1, BlocksOf(v.log), dir);
    ClearTrans(files, after, after, dir, ino, g, l0, l1, BlocksOf(v.log));
    DroppedShown(d, v.d, v.geo, v.csum, files, after, dir, ino, c, name);
    HasTarget(ViewOf(d, files, dir), name);
    SameTargets(ViewOf(d, files, dir), files);
    FewerTargets(ViewOf(d, files, dir), ViewOf(d, files, dir), files, name);
    ShieldBy(d, v.d, files, after, dir, ino, g, l0, BlocksOf(v.log));
    StillUnmarked(m, v.d, v.geo, ino);
    now := Dropped(c, name);
  }

  lemma StillUnmarked(d: Disk, e: Disk, geo: Geometry, ino: nat)
    requires MarksKept(d, e, geo) && IsIno(geo, ino) && !InoUsed(d, ino)
    ensures !InoUsed(e, ino)
  {
    hide InoUsed, IsIno;
  }

  lemma WithoutOne(files: FileMap, x: nat)
    ensures SameBut(files, files - {x}, x)
  {
  }

  // ---- mv ----

  /** mv within a directory: the entry gets another name, whatever it leads to. */
  method MoveFile(v: Device, dir: nat, name: seq<Byte>, to: seq<Byte>, ghost files: FileMap, ghost c: Catalog,
                  ghost g: nat)
    returns (err: Option<FsErr>, ghost after: FileMap, ghost now: Catalog)
    requires v.Valid() && Represents(v.d, v.geo, v.csum, files, dir, c) && |to| < 256
    modifies v`d, v`log
    ensures v.Valid() && Represents(v.d, v.geo, v.csum, after, dir, now)
    ensures (err, now) == Answer(old(v.d), v.geo, files, dir, c, Move(name, to)) && Allowed(c, Move(name, to), err, now)
    ensures ShieldHolds(old(v.d), v.d, files, after, dir, g, BlocksOf(old(v.log)), BlocksOf(v.log))
    ensures Spent(BlocksOf(old(v.log)), BlocksOf(v.log), 4)
  {
    hide DirState, ViewOf, Spared, FileIs, Represents, InoUsed, IsIno, Overwrite, Renamed, UsedSet, Elems, BlocksOf,
         Avoids, Kept, OldBlocks, SameBut, ShieldHolds, Clear, NoNewTargets, IsTarget, Allowed, AddOutcome, AddTakes,
         NeedFor, MarksKept, Spent;
    ghost var d, l0 := v.d, BlocksOf(v.log);
    SpentSame(l0, 4);
    AnswerAllowed(d, v.geo, files, dir, c, Move(name, to));
    Sound(d, v.geo, v.csum, files, dir, c);
    ShieldSame(d, files, dir, g, l0);
    ContentsOf(d, v.geo, v.csum, files, dir, c, name);
    ContentsOf(d, v.geo, v.csum, files, dir, c, to);
    var t := Find(v, dir, name, files);
    if t.Err? {
      return Some(t.error), files, c;
    }
    var taken := Find(v, dir, to, files);
    if taken.Ok? {
      return Some(Exists), files, c;
    }
    TargetFits(d, v.geo, v.csum, files, dir, name);
    err, after := AddName(v, dir, to, t.value, files, dir);
    ghost var m, l1 := v.d, BlocksOf(v.log);
    ClearBy(files, after, dir, dir, g, l0, l1, dir);
    SpentMore(l0, l1, 3, 4);
    if err.Some? {
      NothingShown(d, m, v.geo, v.csum, files, after, dir, dir, c);
      SameTargets(ViewOf(d, files, dir), files);
      ShieldBy(d, m, files, after, dir, dir, g, l0, l1);
      return err, after, c;
    }
    err := DropName(v, dir, name, after);
    SpentTrans(l0, l1, BlocksOf(v.log), 3, 1);
    SparedTrans(d, m, v.d, files, after, after, dir, dir);
    SameButSame(after, dir);
    ClearBy(after, after, dir, dir, g, l1, BlocksOf(v.log), dir);
    ClearTrans(files, after, after, dir, dir, g, l0, l1, BlocksOf(v.log));
    RenamedShown(d, v.d, v.geo, v.csum, files, after, dir, c, name, to);
    MovedTargets(ViewOf(d, files, dir), files, name, to);
    ShieldBy(d, v.d, files, after, dir, dir, g, l0, BlocksOf(v.log));
    now := Renamed(c, name, to);
  }

  lemma MovedTargets(view: DirMap, files: FileMap, name: seq<Byte>, to: seq<Byte>)
    requires name in view && to !in view
    ensures NoNewTargets(view, view[to := view[name]] - {name}, files)
  {
    if IsFile(view, name) {
      HasTarget(view, name);
    }
    MoreTargets(view, files, to, view[name]);
    FewerTargets(view, view[to := view[name]], files, name);
  }
}
