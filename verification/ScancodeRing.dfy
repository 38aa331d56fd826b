/** The scancode ring: one producer (the keyboard interrupt) and one consumer, interleaved at every
    single atomic load and store of its two indices and its buffer. */
module ScancodeRing {
  import opened Bytes
  import opened Wrappers

  type Buffer = b: seq<Byte> | |b| == 512 witness seq(512, _ => 0)

  /** Where the producer stands inside push_byte, with its local variables. */
  datatype Producer =
    | Resting
    | LoadedW(sc: Byte, w: nat)
    | Checked(sc: Byte, w: nat, nw: nat)
    | Stored(sc: Byte, nw: nat)
    | Published

  /** Where the consumer stands inside pop_byte. */
  datatype Consumer =
    | Waiting
    | LoadedR(r: nat)
    | NotEmpty(r: nat)
    | Fetched(r: nat, sc: Byte)

  /** The shared ring, the two threads, and the history: bytes accepted, bytes popped, bytes dropped,
      pops that returned nothing, and the statistics counter. */
  datatype State = State(buf: Buffer, w: nat, r: nat, prod: Producer, cons: Consumer,
                         accepted: seq<Byte>, popped: seq<Byte>, dropped: nat, empties: nat, pushed: nat)

  /** A call starts, or a thread performs its next atomic operation. */
  datatype Event = Push(sc: Byte) | ProducerStep | Pop | ConsumerStep

  const INIT: State := State(Zeros(512), 0, 0, Resting, Waiting, [], [], 0, 0, 0)

  function Step(s: State, e: Event): State {
    match e
    case Push(sc) => if s.prod == Resting then s.(prod := LoadedW(sc, s.w)) else s
    case ProducerStep => ProducerNext(s)
    case Pop => if s.cons == Waiting then s.(cons := LoadedR(s.r)) else s
    case ConsumerStep => ConsumerNext(s)
  }

  function ProducerNext(s: State): State {
    match s.prod
    case Resting => s
    case LoadedW(sc, w) =>
      var nw := (w + 1) % 512;
      if nw == s.r then s.(prod := Resting, dropped := s.dropped + 1) else s.(prod := Checked(sc, w, nw))
    case Checked(sc, w, nw) => if w < 512 then s.(buf := s.buf[w := sc], prod := Stored(sc, nw)) else s
    case Stored(sc, nw) => s.(w := nw, prod := Published, accepted := s.accepted + [sc])
    case Published => s.(prod := Resting, pushed := s.pushed + 1)
  }

  function ConsumerNext(s: State): State {
    match s.cons
    case Waiting => s
    case LoadedR(r) =>
      if r == s.w then s.(cons := Waiting, empties := s.empties + 1) else s.(cons := Consumer.NotEmpty(r))
    case NotEmpty(r) => if r < 512 then s.(cons := Fetched(r, s.buf[r])) else s
    case Fetched(r, sc) => s.(r := (r + 1) % 512, cons := Waiting, popped := s.popped + [sc])
  }

  // ---- the invariant ----

  /** Bytes accepted and not yet popped. */
  function Queued(s: State): int { |s.accepted| - |s.popped| }

  /** Slot of the `k`-th unread byte. */
  function Slot(s: State, k: nat): (i: nat)
    ensures i < 512
  {
    (s.r + k) % 512
  }

  predicate Unread(s: State, k: nat) {
    |s.popped| + k < |s.accepted| && s.buf[Slot(s, k)] == s.accepted[|s.popped| + k]
  }

  ghost predicate RingOk(s: State) {
    && s.w < 512 && s.r < 512 && 0 <= Queued(s) <= 511 && s.w == (s.r + Queued(s)) % 512
    && s.popped == s.accepted[..|s.popped|]
    && forall k: nat :: k < Queued(s) ==> Unread(s, k)
  }

  predicate ProducerOk(s: State) {
    match s.prod
    case Resting => true
    case LoadedW(sc, w) => w == s.w
    case Checked(sc, w, nw) => w == s.w && nw == (w + 1) % 512 && Queued(s) <= 510
    case Stored(sc, nw) => nw == (s.w + 1) % 512 && Queued(s) <= 510 && s.w < 512 && s.buf[s.w] == sc
    case Published => true
  }

  predicate ConsumerOk(s: State) {
    match s.cons
    case Waiting => true
    case LoadedR(r) => r == s.r
    case NotEmpty(r) => r == s.r && Queued(s) >= 1
    case Fetched(r, sc) => r == s.r && Queued(s) >= 1 && |s.popped| < |s.accepted| && sc == s.accepted[|s.popped|]
  }

  ghost predicate Inv(s: State) {
    RingOk(s) && ProducerOk(s) && ConsumerOk(s) && |s.accepted| == s.pushed + if s.prod == Published then 1 else 0
  }

  /** Different unread bytes, and the next slot to be written, are different slots. */
  lemma SlotsApart(r: nat, j: nat, k: nat)
    requires j < k < 512
    ensures (r + j) % 512 != (r + k) % 512
  {
    var laps := (r + k) / 512 - (r + j) / 512;
    assert (r + k) % 512 - (r + j) % 512 == k - j - 512 * laps;
  }

  /** The store of push_byte never hits an unread byte, even though the consumer may have moved on
      since the check. */
  lemma StoreIsSafe(s: State, k: nat)
    requires Inv(s) && s.prod.Checked? && k < Queued(s)
    ensures s.prod.w != Slot(s, k)
  {
    SlotsApart(s.r, k, Queued(s));
  }

  lemma ProducerKeeps(s: State)
    requires Inv(s)
    ensures Inv(ProducerNext(s))
  {
    var t := ProducerNext(s);
    match s.prod
    case Resting =>
    case LoadedW(sc, w) =>
      if (w + 1) % 512 != s.r {
        RoomLeft(s);
      }
      SameRing(s, t);
    case Checked(sc, w, nw) => StoreKeeps(s);
    case Stored(sc, nw) => PublishKeeps(s);
    case Published =>
      SameRing(s, t);
  }

  lemma StoreKeeps(s: State)
    requires Inv(s) && s.prod.Checked?
    ensures Inv(ProducerNext(s))
  {
    var t := ProducerNext(s);
    assert s.cons.Fetched? ==> ConsumerOk(t);
    forall k: nat | k < Queued(t)
      ensures Unread(t, k)
    {
      assert Unread(s, k);
      StoreIsSafe(s, k);
    }
  }

  lemma PublishKeeps(s: State)
    requires Inv(s) && s.prod.Stored?
    ensures Inv(ProducerNext(s))
  {
    var t := ProducerNext(s);
    Advance(s.r, Queued(s));
    forall k: nat | k < Queued(t)
      ensures Unread(t, k)
    {
      if k < Queued(s) {
        assert Unread(s, k);
      }
    }
  }

  lemma Advance(r: nat, n: nat)
    ensures ((r + n) % 512 + 1) % 512 == (r + n + 1) % 512
  {
  }

  lemma SameRing(s: State, t: State)
    requires RingOk(s) && t.buf == s.buf && t.w == s.w && t.r == s.r && t.accepted == s.accepted && t.popped == s.popped
    ensures RingOk(t)
  {
    forall k: nat | k < Queued(t)
      ensures Unread(t, k)
    {
      assert Unread(s, k);
    }
  }

  /** The test `(w + 1) % 512 == r` fires exactly when 511 bytes are queued. */
  lemma FullExactly(s: State)
    requires RingOk(s)
    ensures (s.w + 1) % 512 == s.r <==> Queued(s) == 511
  {
    if Queued(s) < 511 {
      SlotsApart(s.r, 0, Queued(s) + 1);
    }
  }

  lemma RoomLeft(s: State)
    requires RingOk(s) && (s.w + 1) % 512 != s.r
    ensures Queued(s) <= 510
  {
    FullExactly(s);
  }

  /** The test `r == w` fires exactly when nothing is queued. */
  lemma EmptyExactly(s: State)
    requires RingOk(s)
    ensures s.r == s.w <==> Queued(s) == 0
  {
    if Queued(s) > 0 {
      SlotsApart(s.r, 0, Queued(s));
    }
  }

  lemma ConsumerKeeps(s: State)
    requires Inv(s)
    ensures Inv(ConsumerNext(s))
  {
    var t := ConsumerNext(s);
    match s.cons
    case Waiting =>
    case LoadedR(r) =>
      EmptyExactly(s);
      SameRing(s, t);
    case NotEmpty(r) =>
      assert Unread(s, 0);
      SameRing(s, t);
    case Fetched(r, sc) => PopKeeps(s);
  }

  lemma PopKeeps(s: State)
    requires Inv(s) && s.cons.Fetched?
    ensures Inv(ConsumerNext(s))
  {
    var t := ConsumerNext(s);
    PopUnread(s);
    NextSlot(s.r, Queued(s));
    hide Unread;
    assert t.popped == s.accepted[..|s.popped| + 1];
  }

  lemma NextSlot(r: nat, n: nat)
    requires n > 0
    ensures (r + n) % 512 == ((r + 1) % 512 + (n - 1)) % 512
  {
  }

  lemma PopUnread(s: State)
    requires Inv(s) && s.cons.Fetched?
    ensures Queued(ConsumerNext(s)) >= 0
    ensures forall k: nat :: k < Queued(ConsumerNext(s)) ==> Unread(ConsumerNext(s), k)
  {
    var t := ConsumerNext(s);
    forall k: nat | k < Queued(t)
      ensures Unread(t, k)
    {
      assert Unread(s, k + 1);
      NextSlot(s.r, k + 1);
    }
  }

  lemma StepKeeps(s: State, e: Event)
    requires Inv(s)
    ensures Inv(Step(s, e))
  {
    match e
    case Push(sc) => SameRing(s, Step(s, e));
    case ProducerStep => ProducerKeeps(s);
    case Pop => SameRing(s, Step(s, e));
    case ConsumerStep => ConsumerKeeps(s);
  }

  // ---- every run ----

  function Run(s: State, es: seq<Event>): State
    decreases |es|
  {
    if es == [] then s else Step(Run(s, es[..|es| - 1]), es[|es| - 1])
  }

  lemma {:induction false} RunKeeps(s: State, es: seq<Event>)
    requires Inv(s)
    ensures Inv(Run(s, es))
  {
    if es != [] {
      var n := |es| - 1;
      RunKeeps(s, es[..n]);
      StepKeeps(Run(s, es[..n]), es[n]);
    }
  }

  lemma StartsOk()
    ensures Inv(INIT)
  {
    hide Zeros;
  }

  /** In every interleaving the popped bytes are, in order, the first of the accepted bytes, and the
      ring never holds more than 511. */
  lemma RingIsFifo(es: seq<Event>)
    ensures var s := Run(INIT, es);
      s.popped <= s.accepted && |s.accepted| - |s.popped| <= 511 && s.pushed <= |s.accepted| <= s.pushed + 1
  {
    StartsOk();
    RunKeeps(INIT, es);
  }

  /** In every interleaving a byte is dropped exactly when 511 bytes are queued at the check, and a pop
      comes back empty exactly when none is queued at its check. */
  lemma DropsOnlyWhenFull(es: seq<Event>)
    ensures var s := Run(INIT, es);
      && (s.prod.LoadedW? ==> (ProducerNext(s).dropped == s.dropped + 1 <==> Queued(s) == 511))
      && (s.cons.LoadedR? ==> (ConsumerNext(s).empties == s.empties + 1 <==> Queued(s) == 0))
  {
    StartsOk();
    RunKeeps(INIT, es);
    var s := Run(INIT, es);
    FullExactly(s);
    EmptyExactly(s);
  }

  /** A byte offered while the ring has room is the next one accepted, whatever the consumer does meanwhile. */
  lemma AcceptedInTheEnd(s: State, sc: Byte, a: nat, b: nat, c: nat)
    requires Inv(s) && s.prod == LoadedW(sc, s.w) && Queued(s) <= 510
    ensures var t := Consumers(ProducerNext(Consumers(ProducerNext(Consumers(s, a)), b)), c);
            t.prod.Stored? && ProducerNext(t).accepted == s.accepted + [sc]
  {
    hide Inv, Consumers, ProducerNext, Queued;
    ConsumersKeep(s, a);
    var s1 := Consumers(s, a);
    CheckPasses(s1, sc);
    ProducerKeeps(s1);
    var s2 := ProducerNext(s1);
    ConsumersKeep(s2, b);
    var s3 := Consumers(s2, b);
    ThenAccepted(s3, sc);
    ProducerKeeps(s3);
    ConsumersKeep(ProducerNext(s3), c);
    ThenAccepted(Consumers(ProducerNext(s3), c), sc);
  }

  lemma CheckPasses(s: State, sc: Byte)
    requires Inv(s) && s.prod == LoadedW(sc, s.w) && Queued(s) <= 510
    ensures ProducerNext(s).prod == Checked(sc, s.w, (s.w + 1) % 512) && ProducerNext(s).accepted == s.accepted
  {
    FullExactly(s);
  }

  lemma ThenAccepted(s: State, sc: Byte)
    requires Inv(s)
    ensures var t := ProducerNext(s);
      && (s.prod.Checked? && s.prod.sc == sc ==> t.prod == Stored(sc, s.prod.nw) && t.accepted == s.accepted)
      && (s.prod.Stored? && s.prod.sc == sc ==> t.accepted == s.accepted + [sc])
  {
  }

  /** `n` steps of the consumer, starting a new pop when one is done. */
  function Consumers(s: State, n: nat): State
    decreases n
  {
    if n == 0 then s
    else
      var t := Consumers(s, n - 1);
      Step(t, if t.cons == Waiting then Pop else ConsumerStep)
  }

  lemma {:induction false} ConsumersKeep(s: State, n: nat)
    requires Inv(s)
    ensures var t := Consumers(s, n);
      Inv(t) && t.prod == s.prod && t.accepted == s.accepted && t.w == s.w && Queued(t) <= Queued(s)
  {
    if n > 0 {
      ConsumersKeep(s, n - 1);
      var t := Consumers(s, n - 1);
      StepKeeps(t, if t.cons == Waiting then Pop else ConsumerStep);
    }
  }

  // ---- the two calls, run alone ----

  /** The slots from `r` on hold the queue. */
  ghost predicate View(buf: Buffer, r: nat, queue: seq<Byte>) {
    r < 512 && |queue| <= 511 && forall k: nat :: k < |queue| ==> SlotHolds(buf, r, queue, k)
  }

  predicate SlotHolds(buf: Buffer, r: nat, queue: seq<Byte>, k: nat) {
    k < |queue| && buf[(r + k) % 512] == queue[k]
  }

  lemma PushView(buf: Buffer, r: nat, queue: seq<Byte>, sc: Byte)
    requires View(buf, r, queue)
    ensures var w := (r + |queue|) % 512;
      && ((w + 1) % 512 == r <==> |queue| == 511)
      && (|queue| < 511 ==> View(buf[w := sc], r, queue + [sc]) && (w + 1) % 512 == (r + |queue| + 1) % 512)
  {
    var w := (r + |queue|) % 512;
    Advance(r, |queue|);
    if |queue| < 511 {
      SlotsApart(r, 0, |queue| + 1);
      var c: Buffer, q := buf[w := sc], queue + [sc];
      forall k: nat | k < |q|
        ensures SlotHolds(c, r, q, k)
      {
        if k < |queue| {
          assert SlotHolds(buf, r, queue, k);
          SlotsApart(r, k, |queue|);
        }
      }
    }
  }

  lemma PopView(buf: Buffer, r: nat, queue: seq<Byte>)
    requires View(buf, r, queue)
    ensures var w := (r + |queue|) % 512;
      && (r == w <==> queue == [])
      && (queue != [] ==> buf[r] == queue[0] && View(buf, (r + 1) % 512, queue[1..]))
      && (queue != [] ==> w == ((r + 1) % 512 + |queue| - 1) % 512)
  {
    if queue != [] {
      SlotsApart(r, 0, |queue|);
      assert SlotHolds(buf, r, queue, 0);
      PopRest(buf, r, queue);
    }
  }

  lemma PopRest(buf: Buffer, r: nat, queue: seq<Byte>)
    requires View(buf, r, queue) && queue != []
    ensures View(buf, (r + 1) % 512, queue[1..])
  {
    var r1, q := (r + 1) % 512, queue[1..];
    forall k: nat | k < |q|
      ensures SlotHolds(buf, r1, q, k)
    {
      assert SlotHolds(buf, r, queue, k + 1);
    }
  }

  /** The ring as the driver's three statics. */
  class RawRing {
    const buf: array<Byte>
    var w: nat
    var r: nat
    ghost var queue: seq<Byte>

    ghost predicate Valid()
      reads this, buf
    {
      buf.Length == 512 && View(buf[..], r, queue) && w == (r + |queue|) % 512
    }

    constructor ()
      ensures Valid() && queue == [] && fresh(buf)
    {
      buf := new Byte[512](_ => 0);
      w, r := 0, 0;
      queue := [];
    }

    /** push_byte: appends, or drops the byte when 511 are queued. */
    method PushByte(sc: Byte)
      requires Valid()
      modifies this, buf
      ensures Valid() && queue == if |old(queue)| == 511 then old(queue) else old(queue) + [sc]
    {
      PushView(buf[..], r, queue, sc);
      var nw := (w + 1) % 512;
      if nw == r {
        return;
      }
      buf[w] := sc;
      assert buf[..] == old(buf[..])[w := sc];
      w := nw;
      queue := queue + [sc];
    }

    /** pop_byte: the oldest byte, or nothing when none is queued. */
    method PopByte() returns (b: Option<Byte>)
      requires Valid()
      modifies this`r, this`queue
      ensures Valid()
      ensures if old(queue) == [] then b == None && queue == []
              else b == Some(old(queue)[0]) && queue == old(queue)[1..]
    {
      PopView(buf[..], r, queue);
      if r == w {
        return None;
      }
      var sc := buf[r];
      r := (r + 1) % 512;
      queue := queue[1..];
      return Some(sc);
    }
  }
}
