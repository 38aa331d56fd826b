/** The user table and its file: printing to /etc/passwd, parsing it back, and exactly when the two
    cancel out. Characters are code points, bytes are what the file holds. */
module Passwd {
  import opened Bytes
  import opened Wrappers

  const MAX_USERS: nat := 16
  const NAME_CAP: nat := 16
  const PASS_CAP: nat := 32
  const FILE_CAP: nat := 2048
  const COLON: Byte := 58
  const NEWLINE: Byte := 10

  type Text = seq<nat>

  datatype User = User(name: Text, uid: nat, gid: nat, pass: Text)

  const ROOT: Text := [114, 111, 111, 116]

  // ---- decimal numbers ----

  /** The digits of `v`, most significant first. */
  function Dec(v: nat): (s: seq<Byte>)
    ensures s != [] && forall i :: 0 <= i < |s| ==> 48 <= s[i] <= 57
  {
    if v < 10 then [48 + v] else Dec(v / 10) + [48 + v % 10]
  }

  /** The value of a digit string, if it has only digits and fits 32 bits. */
  function Value(s: seq<Byte>): (v: Option<nat>)
    ensures v.Some? ==> v.value < U32_LIMIT
  {
    if s == [] then Some(0)
    else
      var n := |s| - 1;
      match Value(s[..n])
      case None => None
      case Some(v) =>
        if 48 <= s[n] <= 57 && 10 * v + (s[n] - 48) < U32_LIMIT then Some(10 * v + (s[n] - 48)) else None
  }

  function ParseNumber(s: seq<Byte>): Option<nat> {
    if s == [] then None else Value(s)
  }

  /** Every 32-bit number survives printing and parsing. */
  lemma {:induction false} NumberRoundTrip(v: nat)
    requires v < U32_LIMIT
    ensures ParseNumber(Dec(v)) == Some(v)
  {
    if v >= 10 {
      NumberRoundTrip(v / 10);
      assert Dec(v)[..|Dec(v)| - 1] == Dec(v / 10);
      assert Value(Dec(v / 10)) == Some(v / 10);
    } else {
      assert Dec(v)[..0] == [];
      assert Value([]) == Some(0);
    }
  }

  lemma {:induction false} DigitsShort(v: nat, n: nat)
    requires n >= 1 && v < Pow10(n)
    ensures |Dec(v)| <= n
  {
    if v >= 10 {
      DigitsShort(v / 10, n - 1);
    }
  }

  function Pow10(n: nat): nat {
    if n == 0 then 1 else 10 * Pow10(n - 1)
  }

  lemma TenDigits(v: nat)
    requires v < U32_LIMIT
    ensures |Dec(v)| <= 10
  {
    assert Pow10(5) == 100000;
    assert Pow10(10) == 100000 * Pow10(5) by {
      assert Pow10(7) == 100 * Pow10(5);
      assert Pow10(9) == 100 * Pow10(7);
    }
    DigitsShort(v, 10);
  }

  // ---- printing ----

  /** `(c as u32) as u8` for each character. */
  function Narrow(t: Text): (s: seq<Byte>)
    ensures |s| == |t| && forall i :: 0 <= i < |t| ==> s[i] == t[i] % 256
  {
    if t == [] then [] else Narrow(t[..|t| - 1]) + [t[|t| - 1] % 256]
  }

  /** A user's line without the newline. */
  function Line(u: User): seq<Byte> {
    Narrow(u.name) + [COLON] + Dec(u.uid) + [COLON] + Dec(u.gid) + [COLON] + Narrow(u.pass)
  }

  function Print(us: seq<User>): seq<Byte> {
    if us == [] then [] else Print(us[..|us| - 1]) + Line(us[|us| - 1]) + [NEWLINE]
  }

  /** What fits a user record. */
  predicate Fits(u: User) {
    |u.name| <= NAME_CAP && |u.pass| <= PASS_CAP && u.uid < U32_LIMIT && u.gid < U32_LIMIT
  }

  predicate FitTable(us: seq<User>) {
    |us| <= MAX_USERS && forall i :: 0 <= i < |us| ==> Fits(us[i])
  }

  lemma LineShort(u: User)
    requires Fits(u)
    ensures |Line(u)| <= 71
  {
    TenDigits(u.uid);
    TenDigits(u.gid);
  }

  lemma {:induction false} PrintShort(us: seq<User>)
    requires FitTable(us)
    ensures |Print(us)| <= 72 * |us|
  {
    if us != [] {
      PrintShort(us[..|us| - 1]);
      LineShort(us[|us| - 1]);
    }
  }

  /** The 2048-byte buffer holds every table. */
  lemma NeverTruncated(us: seq<User>)
    requires FitTable(us)
    ensures |Print(us)| <= 1152 < FILE_CAP
  {
    PrintShort(us);
  }

  /** What is left of `s` in a buffer of `n` bytes. */
  function Cut(s: seq<Byte>, n: nat): (r: seq<Byte>) {
    if |s| <= n then s else s[..n]
  }

  /** push_byte: the byte is stored unless the buffer is full. */
  method PushByte(buf: array<Byte>, pos: nat, b: Byte, ghost s: seq<Byte>) returns (next: nat)
    requires pos <= buf.Length && buf[..pos] == Cut(s, buf.Length)
    modifies buf
    ensures next <= buf.Length && buf[..next] == Cut(s + [b], buf.Length)
  {
    if pos < buf.Length {
      buf[pos] := b;
      assert buf[..pos + 1] == buf[..pos] + [b];
      return pos + 1;
    }
    return pos;
  }

  /** The digit loop of push_u32: least significant digit first. */
  method Digits(v: nat) returns (tmp: array<Byte>, n: nat)
    requires 0 < v < U32_LIMIT
    ensures fresh(tmp) && n == |Dec(v)| <= tmp.Length && forall k :: 0 <= k < n ==> tmp[k] == Dec(v)[n - 1 - k]
  {
    hide Dec;
    TenDigits(v);
    tmp := new Byte[10];
    n := 0;
    var rest: nat := v;
    ghost var all := Dec(v);
    while rest > 0
      invariant rest < U32_LIMIT && n <= |all| <= 10
      invariant if rest > 0 then Dec(rest) == all[..|all| - n] else n == |all|
      invariant forall k :: 0 <= k < n ==> tmp[k] == all[|all| - 1 - k]
    {
      LastDigit(rest);
      tmp[n] := 48 + rest % 10;
      rest := rest / 10;
      n := n + 1;
    }
  }

  lemma LastDigit(v: nat)
    requires v > 0
    ensures Dec(v)[|Dec(v)| - 1] == 48 + v % 10
    ensures if v < 10 then |Dec(v)| == 1 else Dec(v)[..|Dec(v)| - 1] == Dec(v / 10)
  {
  }

  /** push_u32: the digits, produced from the least significant one and pushed in reverse. */
  method PushNumber(buf: array<Byte>, pos: nat, v: nat, ghost s: seq<Byte>) returns (next: nat)
    requires v < U32_LIMIT && pos <= buf.Length && buf[..pos] == Cut(s, buf.Length)
    modifies buf
    ensures next <= buf.Length && buf[..next] == Cut(s + Dec(v), buf.Length)
  {
    if v == 0 {
      next := PushByte(buf, pos, 48, s);
      return;
    }
    var tmp, n := Digits(v);
    ghost var all := Dec(v);
    next := pos;
    var i: nat := n;
    assert s + all[..0] == s;
    while i > 0
      modifies buf
      invariant i <= n && next <= buf.Length && buf[..next] == Cut(s + all[..n - i], buf.Length)
      invariant forall k :: 0 <= k < n ==> tmp[k] == all[n - 1 - k]
    {
      i := i - 1;
      assert s + all[..n - i] == s + all[..n - i - 1] + [tmp[i]];
      next := PushByte(buf, next, tmp[i], s + all[..n - i - 1]);
    }
    assert all[..n] == all;
  }

  method PushText(buf: array<Byte>, pos: nat, t: Text, ghost s: seq<Byte>) returns (next: nat)
    requires pos <= buf.Length && buf[..pos] == Cut(s, buf.Length)
    modifies buf
    ensures next <= buf.Length && buf[..next] == Cut(s + Narrow(t), buf.Length)
  {
    next := pos;
    assert s + Narrow(t)[..0] == s;
    for j := 0 to |t|
      invariant next <= buf.Length && buf[..next] == Cut(s + Narrow(t)[..j], buf.Length)
    {
      assert s + Narrow(t)[..j + 1] == s + Narrow(t)[..j] + [t[j] % 256];
      next := PushByte(buf, next, t[j] % 256, s + Narrow(t)[..j]);
    }
    assert Narrow(t)[..|t|] == Narrow(t);
  }

  /** save_to_fs, up to the write: the file is the printed table, whole. */
  method Save(us: seq<User>) returns (file: seq<Byte>)
    requires FitTable(us)
    ensures file == Print(us)
  {
    var buf := new Byte[2048];
    var pos: nat := 0;
    for i := 0 to |us|
      invariant pos <= buf.Length && buf[..pos] == Cut(Print(us[..i]), 2048)
    {
      ghost var s := Print(us[..i]);
      var u := us[i];
      pos := PushText(buf, pos, u.name, s);
      pos := PushByte(buf, pos, COLON, s + Narrow(u.name));
      pos := PushNumber(buf, pos, u.uid, s + Narrow(u.name) + [COLON]);
      pos := PushByte(buf, pos, COLON, s + Narrow(u.name) + [COLON] + Dec(u.uid));
      pos := PushNumber(buf, pos, u.gid, s + Narrow(u.name) + [COLON] + Dec(u.uid) + [COLON]);
      pos := PushByte(buf, pos, COLON, s + Narrow(u.name) + [COLON] + Dec(u.uid) + [COLON] + Dec(u.gid));
      pos := PushText(buf, pos, u.pass, s + Narrow(u.name) + [COLON] + Dec(u.uid) + [COLON] + Dec(u.gid) + [COLON]);
      LineAppended(s, u);
      pos := PushByte(buf, pos, NEWLINE, s + Line(u));
      assert us[..i + 1][..i] == us[..i];
    }
    assert us[..|us|] == us;
    NeverTruncated(us);
    file := buf[..pos];
  }

  lemma LineAppended(s: seq<Byte>, u: User)
    ensures s + Narrow(u.name) + [COLON] + Dec(u.uid) + [COLON] + Dec(u.gid) + [COLON] + Narrow(u.pass) == s + Line(u)
  {
  }
}
