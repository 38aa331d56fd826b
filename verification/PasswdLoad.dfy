/** Loading the user table from its file: lines, fields, numbers, and the rebuilt table. */
module PasswdLoad {
  import opened Bytes
  import opened Collections
  import opened Wrappers
  import opened Passwd

  // ---- lines and fields ----

  /** The pieces of `s` between separators; one more than there are separators. */
  function Split(s: seq<Byte>, sep: Byte): (r: seq<seq<Byte>>)
    ensures r != []
    decreases |s|
  {
    if s == [] then [[]]
    else if s[0] == sep then [[]] + Split(s[1..], sep)
    else
      var r := Split(s[1..], sep);
      [[s[0]] + r[0]] + r[1..]
  }

  lemma {:induction false} SplitNone(a: seq<Byte>, sep: Byte)
    requires sep !in a
    ensures Split(a, sep) == [a]
    decreases |a|
  {
    if a != [] {
      SplitNone(a[1..], sep);
      assert a == [a[0]] + a[1..];
    }
  }

  lemma {:induction false} SplitFirst(a: seq<Byte>, b: seq<Byte>, sep: Byte)
    requires sep !in a
    ensures Split(a + [sep] + b, sep) == [a] + Split(b, sep)
    decreases |a|
  {
    var s := a + [sep] + b;
    if a == [] {
      assert s[1..] == b;
    } else {
      SplitFirst(a[1..], b, sep);
      assert s[1..] == a[1..] + [sep] + b;
      assert a == [a[0]] + a[1..];
    }
  }

  /** Lines: a newline at the very end starts no further line. */
  function Lines(s: seq<Byte>): (r: seq<seq<Byte>>)
    decreases |s|
  {
    if s == [] then []
    else
      var e := LineEnd(s);
      [s[..e]] + if e == |s| then [] else Lines(s[e + 1..])
  }

  /** Where the first line ends. */
  function LineEnd(s: seq<Byte>): (e: nat)
    ensures e <= |s| && NEWLINE !in s[..e] && (e < |s| ==> s[e] == NEWLINE)
    decreases |s|
  {
    if s == [] || s[0] == NEWLINE then 0
    else
      var e := LineEnd(s[1..]);
      assert s[..e + 1] == [s[0]] + s[1..][..e];
      e + 1
  }

  lemma {:induction false} LineEndIs(s: seq<Byte>, e: nat)
    requires e <= |s| && NEWLINE !in s[..e] && (e < |s| ==> s[e] == NEWLINE)
    ensures LineEnd(s) == e
    decreases |s|
  {
    assert e > 0 ==> s[..e][0] == s[0];
    if s != [] && s[0] != NEWLINE {
      assert s[1..][..e - 1] == s[..e][1..];
      LineEndIs(s[1..], e - 1);
    }
  }

  // ---- one line ----

  /** bytes_to_chars accepts these bytes for a buffer of `cap` characters. */
  predicate IsText(s: seq<Byte>, cap: nat) {
    |s| <= cap && 0 !in s && COLON !in s
  }

  function Widen(s: seq<Byte>): (t: Text)
    ensures |t| == |s| && forall i :: 0 <= i < |s| ==> t[i] == s[i]
  {
    if s == [] then [] else Widen(s[..|s| - 1]) + [s[|s| - 1]]
  }

  /** The user of a line. A line of three fields is skipped: the password field must be there. */
  function ParseLine(line: seq<Byte>): (u: Option<User>) {
    var fs := Split(line, COLON);
    if |fs| < 4 || !IsText(fs[0], NAME_CAP) || !IsText(fs[3], PASS_CAP) then None
    else
      var uid := match ParseNumber(fs[1]) case Some(v) => v case None => 0;
      var gid := match ParseNumber(fs[2]) case Some(v) => v case None => uid;
      Some(User(Widen(fs[0]), uid, gid, Widen(fs[3])))
  }

  /** The users of the lines, in order, sixteen at most. */
  function Collect(lines: seq<seq<Byte>>): (us: seq<User>)
    ensures |us| <= MAX_USERS
    decreases |lines|
  {
    if lines == [] then []
    else
      var n := |lines| - 1;
      var us := Collect(lines[..n]);
      var u := ParseLine(lines[n]);
      if |us| < MAX_USERS && u.Some? then us + [u.value] else us
  }

  predicate HasRoot(us: seq<User>) {
    exists i :: 0 <= i < |us| && us[i].name == ROOT
  }

  /** The table is given a root user if it lacks one and has room. */
  function WithRoot(us: seq<User>): (r: seq<User>) {
    if HasRoot(us) || |us| >= MAX_USERS then us else us + [User(ROOT, 0, 0, [])]
  }

  /** load_from_fs on the bytes of the file; an empty file leaves the table alone. */
  function Loaded(file: seq<Byte>, before: seq<User>): seq<User> {
    if file == [] then before else WithRoot(Collect(Lines(file)))
  }

  // ---- the round trip ----

  /** A character that the file format can carry. */
  predicate GoodChar(c: nat) { 1 <= c <= 255 && c != COLON && c != NEWLINE }

  predicate GoodText(t: Text) {
    forall i :: 0 <= i < |t| ==> GoodChar(t[i])
  }

  predicate GoodUser(u: User) { GoodText(u.name) && GoodText(u.pass) }

  predicate GoodTable(us: seq<User>) {
    forall i :: 0 <= i < |us| ==> GoodUser(us[i])
  }

  lemma NarrowGood(t: Text)
    requires GoodText(t)
    ensures COLON !in Narrow(t) && NEWLINE !in Narrow(t) && 0 !in Narrow(t) && Widen(Narrow(t)) == t
  {
    forall i | 0 <= i < |t|
      ensures Narrow(t)[i] == t[i] && t[i] != COLON && t[i] != NEWLINE && t[i] != 0
    {
      assert GoodChar(t[i]);
    }
  }

  lemma LineRoundTrip(u: User)
    requires Fits(u) && GoodUser(u)
    ensures ParseLine(Line(u)) == Some(u) && NEWLINE !in Line(u)
  {
    var a, b, c, e := Narrow(u.name), Dec(u.uid), Dec(u.gid), Narrow(u.pass);
    NarrowGood(u.name);
    NarrowGood(u.pass);
    NumberRoundTrip(u.uid);
    NumberRoundTrip(u.gid);
    assert COLON !in b && COLON !in c && NEWLINE !in b && NEWLINE !in c;
    hide Dec, Narrow, Widen, ParseNumber, Split, ParseLine, GoodText, IsText;
    FourFields(a, b, c, e);
    CleanText(u.name, NAME_CAP);
    CleanText(u.pass, PASS_CAP);
    NoNewline(a, b, c, e);
    FieldsParse(Line(u), a, b, c, e, u);
  }

  lemma CleanText(t: Text, cap: nat)
    requires |t| <= cap && COLON !in Narrow(t) && 0 !in Narrow(t)
    ensures IsText(Narrow(t), cap)
  {
    hide Narrow;
  }

  lemma NoNewline(a: seq<Byte>, b: seq<Byte>, c: seq<Byte>, e: seq<Byte>)
    requires NEWLINE !in a && NEWLINE !in b && NEWLINE !in c && NEWLINE !in e
    ensures NEWLINE !in a + [COLON] + b + [COLON] + c + [COLON] + e
  {
  }

  lemma FieldsParse(line: seq<Byte>, a: seq<Byte>, b: seq<Byte>, c: seq<Byte>, e: seq<Byte>, u: User)
    requires Split(line, COLON) == [a, b, c, e] && IsText(a, NAME_CAP) && IsText(e, PASS_CAP)
    requires ParseNumber(b) == Some(u.uid) && ParseNumber(c) == Some(u.gid) && Widen(a) == u.name && Widen(e) == u.pass
    ensures ParseLine(line) == Some(u)
  {
    hide Split, ParseNumber, Widen, IsText;
  }

  lemma FourFields(a: seq<Byte>, b: seq<Byte>, c: seq<Byte>, e: seq<Byte>)
    requires COLON !in a && COLON !in b && COLON !in c && COLON !in e
    ensures Split(a + [COLON] + b + [COLON] + c + [COLON] + e, COLON) == [a, b, c, e]
  {
    hide Split;
    var ce := c + [COLON] + e;
    var bce := b + [COLON] + ce;
    SplitFirst(a, bce, COLON);
    SplitFirst(b, ce, COLON);
    SplitFirst(c, e, COLON);
    SplitNone(e, COLON);
    assert a + [COLON] + b + [COLON] + c + [COLON] + e == a + [COLON] + bce;
  }

  lemma NothingCollected()
    ensures Collect([]) == []
  {
  }

  function TableLines(us: seq<User>): (r: seq<seq<Byte>>)
    ensures |r| == |us| && forall i :: 0 <= i < |us| ==> r[i] == Line(us[i])
  {
    if us == [] then [] else TableLines(us[..|us| - 1]) + [Line(us[|us| - 1])]
  }

  lemma {:induction false} LinesAppend(s: seq<Byte>, line: seq<Byte>)
    requires NEWLINE !in line && (s != [] ==> s[|s| - 1] == NEWLINE)
    ensures Lines(s + line + [NEWLINE]) == Lines(s) + [line]
    decreases |s|
  {
    hide LineEnd, Lines;
    var r := s + line + [NEWLINE];
    if s == [] {
      NoLines();
      assert r[..|line|] == line;
      LineEndIs(r, |line|);
      FirstLine(r, |line|, []);
    } else {
      var e := LineEnd(s);
      EndsInside(s, e);
      assert r[..e] == s[..e];
      LineEndIs(r, e);
      var rest := s[e + 1..];
      assert rest != [] ==> rest[|rest| - 1] == s[|s| - 1];
      LinesAppend(rest, line);
      FirstLine(r, e, rest + line + [NEWLINE]);
      FirstLine(s, e, rest);
    }
  }

  lemma NoLines()
    ensures Lines([]) == []
  {
  }

  lemma FirstLine(s: seq<Byte>, e: nat, rest: seq<Byte>)
    requires e < |s| && LineEnd(s) == e && s[e + 1..] == rest
    ensures Lines(s) == [s[..e]] + Lines(rest)
  {
    hide LineEnd;
  }

  lemma EndsInside(s: seq<Byte>, e: nat)
    requires s != [] && s[|s| - 1] == NEWLINE && e <= |s| && NEWLINE !in s[..e]
    ensures e < |s|
  {
    assert s[|s| - 1] in s;
    assert s[..e] + s[e..] == s;
    assert NEWLINE in s[e..];
  }

  lemma {:induction false} PrintLines(us: seq<User>)
    requires FitTable(us) && GoodTable(us)
    ensures Lines(Print(us)) == TableLines(us)
    ensures us != [] ==> Print(us) != [] && Print(us)[|Print(us)| - 1] == NEWLINE
  {
    if us != [] {
      var n := |us| - 1;
      PrintLines(us[..n]);
      assert GoodUser(us[n]) && Fits(us[n]);
      LineRoundTrip(us[n]);
      hide Line, Lines;
      LinesAppend(Print(us[..n]), Line(us[n]));
    }
  }

  lemma {:induction false} CollectAll(us: seq<User>)
    requires FitTable(us) && GoodTable(us)
    ensures Collect(TableLines(us)) == us
  {
    hide ParseLine, Line, Fits, GoodUser, Collect, TableLines, GoodTable;
    NothingCollected();
    TableLinesLast(us);
    if us != [] {
      var init, last := us[..|us| - 1], us[|us| - 1];
      LastIsGood(us);
      CollectAll(init);
      LineRoundTrip(last);
      CollectNext(TableLines(init), Line(last));
      assert us == init + [last];
    }
  }

  lemma LastIsGood(us: seq<User>)
    requires FitTable(us) && GoodTable(us) && us != []
    ensures FitTable(us[..|us| - 1]) && GoodTable(us[..|us| - 1]) && Fits(us[|us| - 1]) && GoodUser(us[|us| - 1])
  {
    hide Fits, GoodUser;
  }

  lemma TableLinesLast(us: seq<User>)
    ensures us == [] ==> TableLines(us) == []
    ensures us != [] ==> TableLines(us) == TableLines(us[..|us| - 1]) + [Line(us[|us| - 1])]
  {
    hide Line;
  }

  /** What loading produces can always be carried by the file. */
  lemma ParsedIsGood(line: seq<Byte>)
    requires NEWLINE !in line && ParseLine(line).Some?
    ensures GoodUser(ParseLine(line).value)
  {
    var fs := Split(line, COLON);
    forall k, i | 0 <= k < |fs| && 0 <= i < |fs[k]|
      ensures fs[k][i] != NEWLINE
    {
      PiecesInside(line, COLON, k, i);
    }
    hide Split;
    assert forall i :: 0 <= i < |fs[0]| ==> fs[0][i] in fs[0];
    assert forall i :: 0 <= i < |fs[3]| ==> fs[3][i] in fs[3];
  }

  lemma {:induction false} PiecesInside(s: seq<Byte>, sep: Byte, k: nat, i: nat)
    requires k < |Split(s, sep)| && i < |Split(s, sep)[k]|
    ensures Split(s, sep)[k][i] in s
    decreases |s|
  {
    if s != [] {
      if s[0] == sep {
        PiecesInside(s[1..], sep, k - 1, i);
      } else if k > 0 {
        PiecesInside(s[1..], sep, k, i);
      } else if i > 0 {
        PiecesInside(s[1..], sep, 0, i - 1);
      }
    }
  }

  lemma {:induction false} CollectIsGood(lines: seq<seq<Byte>>)
    requires forall k :: 0 <= k < |lines| ==> NEWLINE !in lines[k]
    ensures GoodTable(Collect(lines))
  {
    if lines != [] {
      var n := |lines| - 1;
      CollectIsGood(lines[..n]);
      if ParseLine(lines[n]).Some? {
        ParsedIsGood(lines[n]);
      }
    }
  }

  lemma {:induction false} LinesHaveNone(s: seq<Byte>, k: nat)
    requires k < |Lines(s)|
    ensures NEWLINE !in Lines(s)[k]
    decreases |s|
  {
    if k > 0 {
      LinesHaveNone(s[LineEnd(s) + 1..], k - 1);
    }
  }

  lemma LoadedIsGood(file: seq<Byte>)
    requires file != []
    ensures GoodTable(Loaded(file, []))
    ensures HasRoot(Loaded(file, [])) || |Loaded(file, [])| == MAX_USERS
  {
    forall k | 0 <= k < |Lines(file)|
      ensures NEWLINE !in Lines(file)[k]
    {
      LinesHaveNone(file, k);
    }
    CollectIsGood(Lines(file));
    var us := Collect(Lines(file));
    var r := WithRoot(us);
    if r != us {
      assert r[|us|].name == ROOT;
    }
  }

  /** The users of all lines that parse, in order. */
  function AllParsed(lines: seq<seq<Byte>>): (us: seq<User>)
    decreases |lines|
  {
    if lines == [] then []
    else AllParsed(lines[..|lines| - 1]) + match ParseLine(lines[|lines| - 1]) case Some(u) => [u] case None => []
  }

  /** The table gets the first sixteen of them. */
  lemma {:induction false} CollectIsFirst(lines: seq<seq<Byte>>)
    ensures var all := AllParsed(lines);
      Collect(lines) == if |all| <= MAX_USERS then all else all[..MAX_USERS]
    decreases |lines|
  {
    hide ParseLine;
    if lines != [] {
      CollectIsFirst(lines[..|lines| - 1]);
    }
  }

  /** What loading adds: nothing, or at the end a root user with uid 0, gid 0 and no password, exactly if no
      line gave one and there is room. */
  lemma RootIsAdded(file: seq<Byte>, before: seq<User>)
    requires file != []
    ensures var us, r := Collect(Lines(file)), Loaded(file, before);
      && us <= r && |r| <= MAX_USERS && (r != us <==> !HasRoot(us) && |us| < MAX_USERS)
      && (r != us ==> |r| == |us| + 1 && r[|us|].name == ROOT && r[|us|].uid == 0 && r[|us|].gid == 0
                      && r[|us|].pass == [])
  {
    hide Collect, Lines;
  }

  /** A number that cannot be read counts as uid 0, or as the uid in place of a gid. */
  lemma UnreadNumbers(name: seq<Byte>, uid: seq<Byte>, gid: seq<Byte>, pass: seq<Byte>)
    requires COLON !in name && COLON !in uid && COLON !in gid && COLON !in pass
    requires IsText(name, NAME_CAP) && IsText(pass, PASS_CAP)
    ensures var u := ParseLine(name + [COLON] + uid + [COLON] + gid + [COLON] + pass);
      && u.Some? && u.value.name == Widen(name) && u.value.pass == Widen(pass)
      && u.value.uid == (if ParseNumber(uid).Some? then ParseNumber(uid).value else 0)
      && u.value.gid == (if ParseNumber(gid).Some? then ParseNumber(gid).value else u.value.uid)
  {
    hide Split, ParseNumber, Widen, IsText;
    FourFields(name, uid, gid, pass);
  }

  /** Saving and loading gives the table back exactly when all its characters are code points 1 to
      255 other than colon and newline, and it has a root user or no room for one. */
  lemma SaveLoadExact(us: seq<User>)
    requires FitTable(us) && us != []
    ensures Loaded(Print(us), us) == us <==> GoodTable(us) && (HasRoot(us) || |us| == MAX_USERS)
  {
    PrintSome(us);
    LoadedIsGood(Print(us));
    if GoodTable(us) {
      PrintLines(us);
      CollectAll(us);
    }
  }

  lemma PrintSome(us: seq<User>)
    requires us != []
    ensures Print(us) != []
  {
  }

  /** A password with a colon is cut there, and one with a zero or a wide character is changed or its
      user forgotten: a concrete table that does not survive. */
  lemma ColonIsLost()
    ensures var us := [User(ROOT, 0, 0, [97, 58, 98])];
      FitTable(us) && HasRoot(us) && Loaded(Print(us), us) != us
  {
    var us := [User(ROOT, 0, 0, [97, 58, 98])];
    assert us[0].name == ROOT;
    assert !GoodChar(us[0].pass[1]) && !GoodUser(us[0]);
    SaveLoadExact(us);
  }

  // ---- the driver ----

  lemma {:induction false} ValuePrefix(s: seq<Byte>, i: nat)
    requires i <= |s| && Value(s[..i]) == None
    ensures Value(s) == None
    decreases |s| - i
  {
    if i < |s| {
      assert s[..i + 1][..i] == s[..i];
      ValuePrefix(s, i + 1);
    } else {
      assert s[..i] == s;
    }
  }

  /** parse_u32 */
  method ParseU32(s: seq<Byte>) returns (r: Option<nat>)
    ensures r == ParseNumber(s)
  {
    if s == [] {
      return None;
    }
    var v: nat := 0;
    for i := 0 to |s|
      invariant Value(s[..i]) == Some(v)
    {
      assert s[..i + 1][..i] == s[..i];
      if !(48 <= s[i] <= 57) || 10 * v >= U32_LIMIT || 10 * v + (s[i] - 48) >= U32_LIMIT {
        ValuePrefix(s, i + 1);
        return None;
      }
      v := 10 * v + (s[i] - 48);
    }
    assert s[..|s|] == s;
    return Some(v);
  }

  /** bytes_to_chars */
  method BytesToChars(s: seq<Byte>, cap: nat) returns (r: Option<Text>)
    ensures r == if IsText(s, cap) then Some(Widen(s)) else None
  {
    if |s| > cap {
      return None;
    }
    var out: Text := [];
    for i := 0 to |s|
      invariant out == Widen(s[..i]) && 0 !in s[..i] && COLON !in s[..i]
    {
      if s[i] == 0 || s[i] == COLON {
        return None;
      }
      assert s[..i + 1][..i] == s[..i];
      out := out + [s[i]];
    }
    assert s[..|s|] == s;
    return Some(out);
  }

  /** The four fields the driver keeps. */
  function Four(r: seq<seq<Byte>>): seq<seq<Byte>> {
    if |r| <= 4 then r else r[..4]
  }

  /** The fields before `start` are `done`, and the next one runs up to `i` at least. */
  ghost predicate Scanned(line: seq<Byte>, done: seq<seq<Byte>>, start: nat, i: nat) {
    if i <= |line| then start <= i && COLON !in line[start..i]
      && Split(line, COLON) == done + Split(line[start..], COLON)
    else Split(line, COLON) == done
  }

  lemma ScanStart(line: seq<Byte>)
    ensures Scanned(line, [], 0, 0)
  {
    assert line[0..] == line;
  }

  lemma ScanOn(line: seq<Byte>, done: seq<seq<Byte>>, start: nat, i: nat)
    requires Scanned(line, done, start, i) && i < |line| && line[i] != COLON
    ensures Scanned(line, done, start, i + 1)
  {
    hide Split;
    assert line[start..i + 1] == line[start..i] + [line[i]];
  }

  lemma ScanField(line: seq<Byte>, done: seq<seq<Byte>>, start: nat, i: nat)
    requires Scanned(line, done, start, i) && i <= |line| && (i < |line| ==> line[i] == COLON)
    ensures start <= i && Scanned(line, done + [line[start..i]], i + 1, i + 1)
  {
    hide Split;
    FieldEnds(line, start, i);
    assert done + [line[start..i]] + [] == done + [line[start..i]];
  }

  lemma FourMore(done: seq<seq<Byte>>, f: seq<Byte>)
    ensures Four(done + [f]) == if |Four(done)| < 4 then Four(done) + [f] else Four(done)
  {
  }

  /** The field loop of load_from_fs. */
  method SplitFields(line: seq<Byte>) returns (fields: seq<seq<Byte>>)
    ensures fields == Four(Split(line, COLON))
  {
    hide Scanned, Split, Four;
    fields := [];
    var start: nat := 0;
    ghost var done: seq<seq<Byte>> := [];
    ScanStart(line);
    NoFields();
    var i: nat := 0;
    while i <= |line|
      invariant i <= |line| + 1 && start <= i && fields == Four(done) && Scanned(line, done, start, i)
    {
      if i == |line| || line[i] == COLON {
        ScanField(line, done, start, i);
        FourMore(done, line[start..i]);
        if |fields| < 4 {
          fields := fields + [line[start..i]];
        }
        done := done + [line[start..i]];
        start := i + 1;
      } else {
        ScanOn(line, done, start, i);
      }
      i := i + 1;
    }
    ScanDone(line, done, start, i);
  }

  lemma NoFields()
    ensures Four([]) == []
  {
  }

  lemma ScanDone(line: seq<Byte>, done: seq<seq<Byte>>, start: nat, i: nat)
    requires Scanned(line, done, start, i) && i > |line|
    ensures Split(line, COLON) == done
  {
  }

  lemma FieldEnds(line: seq<Byte>, start: nat, i: nat)
    requires start <= i <= |line| && COLON !in line[start..i] && (i < |line| ==> line[i] == COLON)
    ensures Split(line[start..], COLON) == [line[start..i]] + if i == |line| then [] else Split(line[i + 1..], COLON)
  {
    hide Split;
    if i == |line| {
      assert line[start..] == line[start..i];
      SplitNone(line[start..i], COLON);
    } else {
      assert line[start..] == line[start..i] + [COLON] + line[i + 1..];
      SplitFirst(line[start..i], line[i + 1..], COLON);
    }
  }

  /** One line of the file. */
  method ReadLine(line: seq<Byte>) returns (u: Option<User>)
    ensures u == ParseLine(line)
  {
    hide Split, ParseNumber, Widen;
    var fs := SplitFields(line);
    if |fs| < 3 {
      return None;
    }
    var uid0 := ParseU32(fs[1]);
    var uid := if uid0.Some? then uid0.value else 0;
    var gid0 := ParseU32(fs[2]);
    var gid := if gid0.Some? then gid0.value else uid;
    var name := BytesToChars(fs[0], NAME_CAP);
    if name.None? || |fs| < 4 {
      return None;
    }
    var pass := BytesToChars(fs[3], PASS_CAP);
    if pass.None? {
      return None;
    }
    return Some(User(name.value, uid, gid, pass.value));
  }

  /** The lines of the file from position `i` on. */
  function LinesAt(file: seq<Byte>, i: nat): seq<seq<Byte>> {
    if i <= |file| then Lines(file[i..]) else []
  }

  lemma NextLine(file: seq<Byte>, i: nat, e: nat)
    requires i < |file| && i <= e <= |file| && NEWLINE !in file[i..e] && (e < |file| ==> file[e] == NEWLINE)
    ensures LinesAt(file, i) == [file[i..e]] + LinesAt(file, e + 1)
  {
    var s := file[i..];
    assert s[..e - i] == file[i..e];
    LineEndIs(s, e - i);
    if e < |file| {
      assert s[e - i + 1..] == file[e + 1..];
    }
  }

  lemma CollectNext(done: seq<seq<Byte>>, line: seq<Byte>)
    ensures var us := Collect(done);
      Collect(done + [line]) == if |us| < MAX_USERS && ParseLine(line).Some? then us + [ParseLine(line).value] else us
  {
    hide ParseLine;
    var ls := done + [line];
    assert ls[..|ls| - 1] == done && ls[|ls| - 1] == line;
  }

  /** The lines before position `i` are `done`. */
  ghost predicate Reading(file: seq<Byte>, done: seq<seq<Byte>>, i: nat) {
    Lines(file) == done + LinesAt(file, i)
  }

  lemma ReadingStart(file: seq<Byte>)
    ensures Reading(file, [], 0) && Collect([]) == []
  {
    hide Lines;
    assert file[0..] == file;
  }

  lemma ReadingStep(file: seq<Byte>, done: seq<seq<Byte>>, i: nat, e: nat)
    requires Reading(file, done, i)
    requires i < |file| && i <= e <= |file| && NEWLINE !in file[i..e] && (e < |file| ==> file[e] == NEWLINE)
    ensures Reading(file, done + [file[i..e]], e + 1)
  {
    hide Lines, LinesAt;
    NextLine(file, i, e);
  }

  lemma ReadingDone(file: seq<Byte>, done: seq<seq<Byte>>, i: nat)
    requires Reading(file, done, i) && i >= |file|
    ensures Lines(file) == done
  {
    hide Lines;
    NoLinesLeft(file, i);
  }

  /** Where the line that begins at `i` ends. */
  method FindNewline(file: seq<Byte>, i: nat) returns (e: nat)
    requires i < |file|
    ensures i <= e <= |file| && NEWLINE !in file[i..e] && (e < |file| ==> file[e] == NEWLINE)
  {
    e := i;
    while e < |file| && file[e] != NEWLINE
      invariant i <= e <= |file| && NEWLINE !in file[i..e]
    {
      e := e + 1;
    }
  }

  /** The line loop of load_from_fs. */
  method ReadLines(file: seq<Byte>) returns (us: seq<User>)
    ensures us == Collect(Lines(file))
  {
    hide Lines, Collect, ParseLine, Reading;
    us := [];
    var i: nat := 0;
    ghost var done: seq<seq<Byte>> := [];
    ReadingStart(file);
    while i < |file|
      invariant us == Collect(done) && Reading(file, done, i)
      decreases |file| - i
    {
      var e := FindNewline(file, i);
      var line := file[i..e];
      CollectNext(done, line);
      if |us| < MAX_USERS {
        var u := ReadLine(line);
        if u.Some? {
          us := us + [u.value];
        }
      }
      ReadingStep(file, done, i, e);
      done := done + [line];
      i := e + 1;
    }
    ReadingDone(file, done, i);
  }

  lemma NoLinesLeft(file: seq<Byte>, i: nat)
    requires i >= |file|
    ensures LinesAt(file, i) == []
  {
  }

  /** load_from_fs, from the bytes of the file to the new table. */
  method Load(file: seq<Byte>, before: seq<User>) returns (us: seq<User>)
    ensures us == Loaded(file, before)
  {
    hide Lines, Collect;
    if |file| == 0 {
      return before;
    }
    var parsed := ReadLines(file);
    us := [];
    var hasRoot := false;
    for i := 0 to |parsed|
      invariant us == parsed[..i] && (hasRoot <==> exists k :: 0 <= k < i && parsed[k].name == ROOT)
    {
      if parsed[i].name == ROOT {
        hasRoot := true;
      }
      us := us + [parsed[i]];
    }
    if !hasRoot && |us| < MAX_USERS {
      us := us + [User(ROOT, 0, 0, [])];
    }
  }

  /** Save, then load: the driver's own round trip. */
  method SaveThenLoad(us: seq<User>) returns (back: seq<User>)
    requires FitTable(us) && us != []
    ensures back == us <==> GoodTable(us) && (HasRoot(us) || |us| == MAX_USERS)
  {
    var file := Save(us);
    back := Load(file, us);
    SaveLoadExact(us);
  }

  // ---- next_uid ----

  /** Some user has this uid. */
  predicate Taken(us: seq<User>, uid: nat) {
    exists i :: 0 <= i < |us| && us[i].uid == uid
  }

  function Uids(us: seq<User>): (s: set<nat>) {
    set i | 0 <= i < |us| :: us[i].uid
  }

  lemma {:induction false} UidsFew(us: seq<User>)
    ensures |Uids(us)| <= |us|
  {
    if us != [] {
      var n := |us| - 1;
      UidsFew(us[..n]);
      assert Uids(us) == Uids(us[..n]) + {us[n].uid} by {
        forall x | x in Uids(us)
          ensures x in Uids(us[..n]) + {us[n].uid}
        {
          var i :| 0 <= i < |us| && us[i].uid == x;
          assert i < n ==> us[..n][i].uid == x;
        }
        forall x | x in Uids(us[..n])
          ensures x in Uids(us)
        {
          var i :| 0 <= i < n && us[..n][i].uid == x;
          assert us[i].uid == x;
        }
      }
    }
  }

  lemma TakenFew(us: seq<User>, n: nat)
    requires forall x: nat :: 1000 <= x < 1000 + n ==> Taken(us, x)
    ensures n <= |Uids(us)|
  {
    RangeSize(1000, 1000 + n);
    forall x | x in Range(1000, 1000 + n)
      ensures x in Uids(us)
    {
      assert Taken(us, x);
    }
    SubsetSize(Range(1000, 1000 + n), Uids(us));
  }

  /** next_uid: the least uid from 1000 on that no user has, found after at most one try per user. */
  method NextUid(us: seq<User>) returns (uid: nat)
    ensures 1000 <= uid <= 1000 + |us| && !Taken(us, uid)
    ensures forall x: nat :: 1000 <= x < uid ==> Taken(us, x)
  {
    uid := 1000;
    while true
      invariant 1000 <= uid <= 1000 + |us| && forall x: nat :: 1000 <= x < uid ==> Taken(us, x)
      decreases 1000 + |us| - uid
    {
      var found := false;
      for i := 0 to |us|
        invariant found ==> Taken(us, uid)
        invariant !found ==> forall k :: 0 <= k < i ==> us[k].uid != uid
      {
        if us[i].uid == uid {
          found := true;
        }
      }
      if !found {
        return;
      }
      TakenFew(us, uid + 1 - 1000);
      UidsFew(us);
      uid := uid + 1;
    }
  }
}
