/** The two bounded rings that feed the audit stream, and the tick that drains them. */
module Telemetry {

  const CAPACITY: nat := 256
  const DRAIN_BATCH: nat := 32
  const HEARTBEAT_TICKS: nat := 100

  function Inc32(x: nat): nat { (x + 1) % 0x1_0000_0000 }

  // ------------------------------------------------------------------ reference

  datatype Record<M> = Message(msg: M) | Overflow(dropped: nat) | Heartbeat

  /** What the rings and the serial port hold, without arrays and cursors. */
  datatype Stream<M, E> = Stream(
    ring: seq<M>,           // messages waiting for the exporter, oldest first
    pending: nat,           // the shared drop counter, a 32-bit word
    log: seq<E>,            // live transaction-log entries, oldest first
    wire: seq<Record<M>>,   // records written so far
    beat: nat)              // ticks since the last heartbeat

  datatype Op<M, E> = Push(m: M) | Append(e: E) | Tick

  function Min(a: nat, b: nat): nat { if a < b then a else b }

  function Messages<M>(ms: seq<M>): seq<Record<M>> {
    if ms == [] then [] else [Message(ms[0])] + Messages(ms[1..])
  }

  function Step<M, E>(s: Stream<M, E>, op: Op<M, E>): Stream<M, E> {
    match op
    case Push(m) =>
      if |s.ring| < CAPACITY - 1 then s.(ring := s.ring + [m]) else s.(pending := Inc32(s.pending))
    case Append(e) =>
      if |s.log| >= CAPACITY then s.(log := s.log[1..] + [e], pending := Inc32(s.pending))
      else s.(log := s.log + [e])
    case Tick =>
      var k := Min(DRAIN_BATCH, |s.ring|);
      var flush := if s.pending > 0 then [Overflow(s.pending)] else [];
      var late := s.beat + 1 >= HEARTBEAT_TICKS;
      s.(pending := 0,
         ring := s.ring[k..],
         wire := s.wire + flush + Messages(s.ring[..k]) + (if late then [Heartbeat] else []),
         beat := if late then 0 else s.beat + 1)
  }

  function Run<M, E>(s: Stream<M, E>, ops: seq<Op<M, E>>): Stream<M, E>
    decreases |ops|
  {
    if ops == [] then s else Step(Run(s, ops[..|ops| - 1]), ops[|ops| - 1])
  }

  /** The state in which the auditor is armed: an empty ring and no drop counted. */
  ghost predicate Armed<M, E>(s: Stream<M, E>) {
    s.ring == [] && s.pending == 0 && |s.log| <= CAPACITY && s.wire == []
  }

  // ------------------------------------------------------------------ the ledger

  /** The messages of a run that the ring took in, in order. */
  function Accepted<M, E>(s: Stream<M, E>, ops: seq<Op<M, E>>): seq<M>
    decreases |ops|
  {
    if ops == [] then [] else
      var init, last := ops[..|ops| - 1], ops[|ops| - 1];
      Accepted(s, init) +
      (if last.Push? && |Run(s, init).ring| < 255 then [last.m] else [])
  }

  /** The messages the ring refused plus the log entries it overwrote. */
  function Dropped<M, E>(s: Stream<M, E>, ops: seq<Op<M, E>>): nat
    decreases |ops|
  {
    if ops == [] then 0 else
      var init, last := ops[..|ops| - 1], ops[|ops| - 1];
      var before := Run(s, init);
      Dropped(s, init) +
      (if (last.Push? && |before.ring| >= 255) || (last.Append? && |before.log| >= 256)
       then 1 else 0)
  }

  /** Everything ever appended to the transaction log. */
  function Appended<M, E>(ops: seq<Op<M, E>>): seq<E>
    decreases |ops|
  {
    if ops == [] then [] else
      var last := ops[|ops| - 1];
      Appended(ops[..|ops| - 1]) + (if last.Append? then [last.e] else [])
  }

  function MessagesOn<M>(wire: seq<Record<M>>): seq<M> {
    if wire == [] then [] else
      (if wire[0].Message? then [wire[0].msg] else []) + MessagesOn(wire[1..])
  }

  function DropsOn<M>(wire: seq<Record<M>>): nat {
    if wire == [] then 0 else
      (if wire[0].Overflow? then wire[0].dropped else 0) + DropsOn(wire[1..])
  }

  function LastOf<E>(s: seq<E>, n: nat): seq<E> {
    if |s| <= n then s else s[|s| - n..]
  }

  lemma {:induction false} WireConcat<M>(a: seq<Record<M>>, b: seq<Record<M>>)
    ensures MessagesOn(a + b) == MessagesOn(a) + MessagesOn(b)
    ensures DropsOn(a + b) == DropsOn(a) + DropsOn(b)
  {
    if a == [] {
      assert a + b == b;
    } else {
      WireConcat(a[1..], b);
      var first := if a[0].Message? then [a[0].msg] else [];
      assert (a + b)[0] == a[0] && (a + b)[1..] == a[1..] + b;
      Associate(first, MessagesOn(a[1..]), MessagesOn(b));
    }
  }

  lemma Associate<X>(a: seq<X>, b: seq<X>, c: seq<X>)
    ensures a + (b + c) == (a + b) + c
  {}

  lemma {:induction false} MessagesRoundTrip<M>(ms: seq<M>)
    ensures MessagesOn(Messages(ms)) == ms && DropsOn(Messages(ms)) == 0
  {
    if ms != [] {
      MessagesRoundTrip(ms[1..]);
      assert Messages(ms)[1..] == Messages(ms[1..]);
    }
  }

  lemma SingleRecord<M>(r: Record<M>)
    ensures MessagesOn([r]) == if r.Message? then [r.msg] else []
    ensures DropsOn([r]) == if r.Overflow? then r.dropped else 0
  {
    assert [r][1..] == [];
  }

  lemma WireConcat4<M>(a: seq<Record<M>>, b: seq<Record<M>>, c: seq<Record<M>>, d: seq<Record<M>>)
    ensures MessagesOn(a + b + c + d) == MessagesOn(a) + MessagesOn(b) + MessagesOn(c) + MessagesOn(d)
    ensures DropsOn(a + b + c + d) == DropsOn(a) + DropsOn(b) + DropsOn(c) + DropsOn(d)
  {
    WireConcat(a, b);
    WireConcat(a + b, c);
    WireConcat(a + b + c, d);
  }

  lemma FlushRecords<M>(pending: nat)
    ensures var flush: seq<Record<M>> := if pending > 0 then [Overflow(pending)] else [];
            MessagesOn(flush) == [] && DropsOn(flush) == pending
  {
    SingleRecord<M>(Overflow(pending));
  }

  lemma BeatRecords<M>(late: bool)
    ensures var beat: seq<Record<M>> := if late then [Heartbeat] else [];
            MessagesOn(beat) == [] && DropsOn(beat) == 0
  {
    SingleRecord<M>(Heartbeat);
  }

  lemma Rejoin<M>(sent: seq<M>, ring: seq<M>, k: nat)
    requires k <= |ring|
    ensures sent + [] + ring[..k] + [] + ring[k..] == sent + ring
  {}

  /** What one tick moves from the ring and the counter to the wire. */
  lemma TickMoves<M, E>(s: Stream<M, E>)
    ensures var t := Step(s, Tick);
            && MessagesOn(t.wire) + t.ring == MessagesOn(s.wire) + s.ring
            && DropsOn(t.wire) == DropsOn(s.wire) + s.pending
  {
    var k := Min(DRAIN_BATCH, |s.ring|);
    var flush: seq<Record<M>> := if s.pending > 0 then [Overflow(s.pending)] else [];
    var late := s.beat + 1 >= HEARTBEAT_TICKS;
    var tail: seq<Record<M>> := if late then [Heartbeat] else [];
    FlushRecords<M>(s.pending);
    BeatRecords<M>(late);
    MessagesRoundTrip(s.ring[..k]);
    WireConcat4(s.wire, flush, Messages(s.ring[..k]), tail);
    Rejoin(MessagesOn(s.wire), s.ring, k);
  }

  lemma SumMod(a: nat, b: nat, c: nat)
    requires (a + b) % 0x1_0000_0000 == c % 0x1_0000_0000
    ensures (a + Inc32(b)) % 0x1_0000_0000 == (c + 1) % 0x1_0000_0000
  {}

  /** The messages sent or waiting are the accepted ones, and the drops counted on the wire
      or waiting are `drops`, modulo 2^32. */
  ghost predicate Balanced<M, E>(s: Stream<M, E>, accepted: seq<M>, drops: nat) {
    && |s.ring| < CAPACITY
    && MessagesOn(s.wire) + s.ring == accepted
    && (DropsOn(s.wire) + s.pending) % 0x1_0000_0000 == drops % 0x1_0000_0000
  }

  lemma PushBalances<M, E>(s: Stream<M, E>, m: M, accepted: seq<M>, drops: nat)
    requires Balanced(s, accepted, drops)
    ensures |s.ring| < CAPACITY - 1 ==> Balanced(Step(s, Push(m)), accepted + [m], drops)
    ensures |s.ring| >= CAPACITY - 1 ==> Balanced(Step(s, Push(m)), accepted, drops + 1)
  {
    SumMod(DropsOn(s.wire), s.pending, drops);
    assert MessagesOn(s.wire) + (s.ring + [m]) == accepted + [m];
  }

  lemma AppendBalances<M, E>(s: Stream<M, E>, e: E, accepted: seq<M>, drops: nat)
    requires Balanced(s, accepted, drops)
    ensures Balanced(Step(s, Append(e)), accepted, if |s.log| >= CAPACITY then drops + 1 else drops)
  {
    SumMod(DropsOn(s.wire), s.pending, drops);
  }

  /** Over any run from the armed state: message records on the wire followed by the ring
      are exactly the accepted messages in order, and the drop counts on the wire plus the
      pending counter are the drops of both rings, modulo 2^32. */
  lemma {:induction false} StreamConserves<M, E>(s: Stream<M, E>, ops: seq<Op<M, E>>)
    requires Armed(s)
    ensures Balanced(Run(s, ops), Accepted(s, ops), Dropped(s, ops))
    decreases |ops|
  {
    if ops != [] {
      var init, last := ops[..|ops| - 1], ops[|ops| - 1];
      var before := Run(s, init);
      StreamConserves(s, init);
      match last {
        case Push(m) => PushBalances(before, m, Accepted(s, init), Dropped(s, init));
        case Append(e) => AppendBalances(before, e, Accepted(s, init), Dropped(s, init));
        case Tick => TickMoves(before);
      }
    }
  }

  /** A tick takes up to 32 of the oldest messages, no more and no fewer. */
  lemma TickTakes<M, E>(s: Stream<M, E>)
    ensures var t, k := Step(s, Tick), if |s.ring| < 32 then |s.ring| else 32;
            t.ring == s.ring[k..] && t.pending == 0 && MessagesOn(t.wire) == MessagesOn(s.wire) + s.ring[..k]
  {
    TickMoves(s);
    var t, k := Step(s, Tick), if |s.ring| < 32 then |s.ring| else 32;
    Unjoin(MessagesOn(t.wire), MessagesOn(s.wire), s.ring, k);
  }

  /** The drop count goes out before the messages, the heartbeat behind them. */
  lemma TickOrder<M, E>(s: Stream<M, E>)
    requires s.beat < 100
    ensures var t, k := Step(s, Tick), if |s.ring| < 32 then |s.ring| else 32;
            var a := |s.wire| + if s.pending > 0 then 1 else 0;
            && |t.wire| == a + k + (if s.beat == 99 then 1 else 0) && t.wire[..|s.wire|] == s.wire
            && (s.pending > 0 ==> t.wire[|s.wire|] == Overflow(s.pending))
            && (forall i :: 0 <= i < k ==> t.wire[a + i] == Message(s.ring[i]))
            && (s.beat == 99 ==> t.wire[a + k] == Heartbeat)
  {
    var k := if |s.ring| < 32 then |s.ring| else 32;
    forall i | 0 <= i < k ensures |Messages(s.ring[..k])| == k && Messages(s.ring[..k])[i] == Message(s.ring[i]) {
      MessagesAt(s.ring[..k], i);
    }
    if k == 0 { assert s.ring[..k] == []; }
  }

  lemma {:induction false} MessagesAt<M>(ms: seq<M>, i: nat)
    requires i < |ms|
    ensures |Messages(ms)| == |ms| && Messages(ms)[i] == Message(ms[i])
  {
    if |ms| > 1 { MessagesAt(ms[1..], if i > 0 then i - 1 else 0); }
  }

  lemma Unjoin<X>(now: seq<X>, was: seq<X>, ring: seq<X>, k: nat)
    requires k <= |ring| && now + ring[k..] == was + ring
    ensures now == was + ring[..k]
  {
    assert was + ring == (was + ring[..k]) + ring[k..];
    assert |now| == |was + ring[..k]|;
    assert (now + ring[k..])[..|now|] == now;
    assert ((was + ring[..k]) + ring[k..])[..|now|] == was + ring[..k];
  }

  // ------------------------------------------------------------------- heartbeats

  function BeatsOn<M>(wire: seq<Record<M>>): nat
    decreases |wire|
  {
    if wire == [] then 0 else BeatsOn(wire[..|wire| - 1]) + if wire[|wire| - 1].Heartbeat? then 1 else 0
  }

  function Ticks<M, E>(ops: seq<Op<M, E>>): nat
    decreases |ops|
  {
    if ops == [] then 0 else Ticks(ops[..|ops| - 1]) + if ops[|ops| - 1].Tick? then 1 else 0
  }

  lemma {:induction false} BeatsConcat<M>(a: seq<Record<M>>, b: seq<Record<M>>)
    ensures BeatsOn(a + b) == BeatsOn(a) + BeatsOn(b)
    decreases |b|
  {
    if b == [] {
      assert a + b == a;
    } else {
      BeatsConcat(a, b[..|b| - 1]);
      assert (a + b)[..|a + b| - 1] == a + b[..|b| - 1];
    }
  }

  lemma {:induction false} NoBeats<M>(ms: seq<M>)
    ensures BeatsOn(Messages(ms)) == 0
  {
    if ms != [] {
      NoBeats(ms[1..]);
      assert Messages(ms) == [Message(ms[0])] + Messages(ms[1..]);
      BeatsConcat([Message(ms[0])], Messages(ms[1..]));
      OneBeat<M>(Message(ms[0]));
    }
  }

  lemma OneBeat<M>(r: Record<M>)
    ensures BeatsOn([r]) == if r.Heartbeat? then 1 else 0
  {
    assert [r][..0] == [];
  }

  lemma TickBeats<M, E>(s: Stream<M, E>)
    requires s.beat < 100
    ensures var t := Step(s, Tick);
            t.beat < 100 && 100 * BeatsOn(t.wire) + t.beat == 100 * BeatsOn(s.wire) + s.beat + 1
  {
    var k := Min(DRAIN_BATCH, |s.ring|);
    var flush: seq<Record<M>> := if s.pending > 0 then [Overflow(s.pending)] else [];
    var ms: seq<Record<M>> := Messages(s.ring[..k]);
    NoBeats(s.ring[..k]);
    BeatsConcat(s.wire + flush + ms, if s.beat + 1 >= HEARTBEAT_TICKS then [Heartbeat] else []);
    BeatsConcat(s.wire + flush, ms);
    BeatsConcat(s.wire, flush);
    OneBeat<M>(Heartbeat);
    OneBeat<M>(Overflow(s.pending));
  }

  /** Over any run there is one heartbeat for every hundred ticks: as many as the ticks, counted
      from the last heartbeat before the run, make full hundreds. */
  lemma {:induction false} HeartbeatEveryHundred<M, E>(s: Stream<M, E>, ops: seq<Op<M, E>>)
    requires s.beat < 100
    ensures var t := Run(s, ops);
            t.beat < 100 && 100 * BeatsOn(t.wire) + t.beat == 100 * BeatsOn(s.wire) + s.beat + Ticks(ops)
    decreases |ops|
  {
    if ops != [] {
      HeartbeatEveryHundred(s, ops[..|ops| - 1]);
      if ops[|ops| - 1].Tick? { TickBeats(Run(s, ops[..|ops| - 1])); }
    }
  }

  /** Over any run the log holds exactly the last 256 entries ever appended, in order. */
  lemma {:induction false} LogKeepsNewest<M, E>(s: Stream<M, E>, ops: seq<Op<M, E>>)
    requires |s.log| <= 256
    ensures Run(s, ops).log == LastOf(s.log + Appended(ops), 256)
    decreases |ops|
  {
    if ops == [] {
      assert s.log + Appended(ops) == s.log;
    } else {
      var init, last := ops[..|ops| - 1], ops[|ops| - 1];
      LogKeepsNewest(s, init);
      var all := s.log + Appended(init);
      if last.Append? {
        assert s.log + Appended(ops) == all + [last.e];
        LastOfSnoc(all, last.e);
      }
    }
  }

  // -------------------------------------------------------------- the ring buffer

  /** The stretch of a ring from tail up to head, around the end if need be. */
  ghost function Window<M>(b: seq<M>, head: nat, tail: nat): seq<M>
    requires head < |b| && tail < |b|
  {
    if head >= tail then b[tail..head] else b[tail..] + b[..head]
  }

  /** Writing at the head and moving it on appends to the window. */
  lemma PushWindow<M>(b: seq<M>, head: nat, tail: nat, m: M)
    requires |b| == 256 && head < 256 && tail < 256 && (head + 1) % 256 != tail
    ensures Window(b[head := m], (head + 1) % 256, tail) == Window(b, head, tail) + [m]
  {
    if head == 255 {
      assert b[head := m][tail..] == b[tail..head] + [m];
    } else if head >= tail {
      assert b[head := m][tail..head + 1] == b[tail..head] + [m];
    } else {
      assert b[head := m][..head + 1] == b[..head] + [m];
    }
  }

  class IpcRing<M(0)> {
    const buf: array<M>
    var head: nat
    var tail: nat
    var overflow: nat

    ghost predicate Valid()
      reads this
    {
      buf.Length == CAPACITY && head < CAPACITY && tail < CAPACITY && overflow < 0x1_0000_0000
    }

    ghost function Length(): nat
      requires Valid()
      reads this
    {
      if head >= tail then head - tail else head + CAPACITY - tail
    }

    /** The queued messages, oldest first. */
    ghost function Contents(): seq<M>
      requires Valid()
      reads this, buf
    {
      Window(buf[..], head, tail)
    }

    constructor ()
      ensures Valid() && fresh(buf) && Contents() == [] && overflow == 0
    {
      buf := new M[CAPACITY];
      head, tail, overflow := 0, 0, 0;
    }

    /** Keeps at most 255 messages: a push on a full ring is dropped and counted. */
    method Push(m: M) returns (accepted: bool)
      requires Valid()
      modifies this, buf
      ensures Valid()
      ensures accepted <==> |old(Contents())| < 255
      ensures accepted ==> Contents() == old(Contents()) + [m] && overflow == old(overflow)
      ensures !accepted ==> Contents() == old(Contents()) && overflow == Inc32(old(overflow))
    {
      var next := (head + 1) % 256;
      if next == tail {
        overflow := (overflow + 1) % 0x1_0000_0000;
        return false;
      }
      PushWindow(buf[..], head, tail, m);
      buf[head] := m;
      head := next;
      return true;
    }

    method Pop() returns (found: bool, m: M)
      requires Valid()
      modifies this
      ensures Valid() && overflow == old(overflow)
      ensures found <==> old(Contents()) != []
      ensures found ==> [m] + Contents() == old(Contents())
      ensures !found ==> Contents() == []
    {
      m := buf[tail];
      if head == tail { return false, m; }
      tail := (tail + 1) % 256;
      return true, m;
    }
  }

  // ---------------------------------------------------------- the transaction log

  /** `head` and `tail` are free-running 32-bit counters; 2^32 is a multiple of 256, so the
      masked index survives their wrap-around. */
  class TxnLog<E(0)> {
    const entries: array<E>
    var head: nat
    var tail: nat
    var overflow: nat
    ghost var history: seq<E>   // every entry ever appended

    ghost predicate Valid()
      reads this, entries
    {
      && entries.Length == CAPACITY
      && head == |history| % 0x1_0000_0000
      && tail == (|history| - Depth()) % 0x1_0000_0000
      && overflow == (|history| - Depth()) % 0x1_0000_0000
      && forall k {:trigger history[k]} :: |history| - Depth() <= k < |history| ==>
           entries[k % 256] == history[k]
    }

    ghost function Depth(): nat
      reads this
    {
      Min(|history|, CAPACITY)
    }

    ghost function Live(): seq<E>
      reads this
    {
      LastOf(history, CAPACITY)
    }

    constructor ()
      ensures Valid() && fresh(entries) && history == []
    {
      entries := new E[CAPACITY];
      head, tail, overflow, history := 0, 0, 0, [];
    }

    /** Appends, overwriting the oldest of 256 entries; a drop is counted in the log and in
        the counter it shares with the message ring. */
    method Append<M(0)>(e: E, ring: IpcRing<M>)
      requires Valid() && ring.Valid()
      modifies this, entries, ring`overflow
      ensures Valid() && ring.Valid() && history == old(history) + [e]
      ensures ring.overflow == if |old(Live())| >= 256 then Inc32(old(ring.overflow)) else old(ring.overflow)
    {
      ghost var n, d := |history|, Depth();
      DepthFromCounters(n, d);
      IndexSurvivesWrap(n);
      IncrementCounter(n);
      IncrementCounter(n - d);
      var depth := (head - tail + 0x1_0000_0000) % 0x1_0000_0000;
      if depth >= CAPACITY {
        tail := Inc32(tail);
        overflow := Inc32(overflow);
        ring.overflow := Inc32(ring.overflow);
      }
      entries[head % 256] := e;
      head := Inc32(head);
      history := history + [e];
      forall k | n + 1 - Depth() <= k < n ensures k % 256 != n % 256 { OtherIndex(k, n); }
    }

    /** Reads the k-th live entry, oldest first, the way a reader of the ring does. */
    method EntryAt(k: nat) returns (e: E)
      requires Valid() && k < |Live()|
      ensures e == Live()[k]
    {
      ghost var j := |history| - Depth() + k;
      IndexSurvivesWrapAt(|history| - Depth(), k);
      e := entries[(tail + k) % 0x1_0000_0000 % 256];
      assert history[j] == Live()[k];
    }
  }

  lemma IncrementCounter(n: nat)
    ensures Inc32(n % 0x1_0000_0000) == (n + 1) % 0x1_0000_0000
  {}

  lemma OtherIndex(k: nat, n: nat)
    requires k < n < k + 256
    ensures k % 256 != n % 256
  {}

  lemma DepthFromCounters(n: nat, depth: nat)
    requires depth <= n && depth <= CAPACITY
    ensures (n % 0x1_0000_0000 - (n - depth) % 0x1_0000_0000 + 0x1_0000_0000) % 0x1_0000_0000 == depth
  {}

  lemma IndexSurvivesWrap(n: nat)
    ensures n % 0x1_0000_0000 % 256 == n % 256
  {}

  lemma IndexSurvivesWrapAt(n: nat, k: nat)
    ensures (n % 0x1_0000_0000 + k) % 0x1_0000_0000 % 256 == (n + k) % 256
  {}

  // ------------------------------------------------------------------ the exporter

  class Exporter<M(0), E(0)> {
    const ring: IpcRing<M>
    const log: TxnLog<E>
    var wire: seq<Record<M>>
    var beat: nat

    ghost predicate Valid()
      reads this, ring, ring.buf, log, log.entries
    {
      ring.Valid() && log.Valid() && ring.buf as object != log.entries
    }

    ghost function View(): Stream<M, E>
      requires Valid()
      reads this, ring, ring.buf, log, log.entries
    {
      Stream(ring.Contents(), ring.overflow, log.Live(), wire, beat)
    }

    constructor ()
      ensures Valid() && Armed(View()) && beat == 0
      ensures fresh(ring) && fresh(ring.buf) && fresh(log) && fresh(log.entries)
    {
      ring := new IpcRing<M>();
      log := new TxnLog<E>();
      wire, beat := [], 0;
    }

    method Push(m: M) returns (accepted: bool)
      requires Valid()
      modifies ring, ring.buf
      ensures Valid() && View() == Step(old(View()), Op.Push(m))
      ensures accepted <==> |old(View()).ring| < CAPACITY - 1
    {
      accepted := ring.Push(m);
    }

    method LogTransaction(e: E)
      requires Valid()
      modifies ring, log, log.entries
      ensures Valid() && View() == Step(old(View()), Op.Append(e))
    {
      log.Append(e, ring);
      LastOfSnoc(old(log.history), e);
    }

    method Drain()
      requires ring.Valid()
      modifies this`wire, ring
      ensures ring.Valid() && ring.overflow == old(ring.overflow)
      ensures var was, k := old(ring.Contents()), Min(32, |old(ring.Contents())|);
              ring.Contents() == was[k..] && wire == old(wire) + Messages(was[..k])
    {
      ghost var was := ring.Contents();
      var drained := 0;
      assert was[..0] == [] && was[0..] == was;
      while drained < DRAIN_BATCH
        invariant ring.Valid() && ring.overflow == old(ring.overflow)
        invariant drained <= Min(DRAIN_BATCH, |was|)
        invariant ring.Contents() == was[drained..]
        invariant wire == old(wire) + Messages(was[..drained])
      {
        ghost var rest := ring.Contents();
        var found, m := ring.Pop();
        if !found { break; }
        assert ring.Contents() == rest[1..] && m == rest[0];
        TakeNext(was, drained);
        wire := wire + [Message(m)];
        drained := drained + 1;
      }
    }

    /** Drains up to 32 messages after reporting the drops, and beats every 100 ticks. */
    method Tick()
      requires Valid()
      modifies this, ring
      ensures Valid() && View() == Step(old(View()), Op.Tick)
    {
      ghost var s := View();
      ghost var k := Min(DRAIN_BATCH, |s.ring|);
      ghost var flush := if s.pending > 0 then [Overflow(s.pending)] else [];
      Flush();
      Drain();
      assert wire == s.wire + flush + Messages(s.ring[..k]);
      assert log.Valid() && log.Live() == s.log;
      beat := beat + 1;
      if beat >= HEARTBEAT_TICKS {
        wire := wire + [Heartbeat];
        beat := 0;
      }
    }

    method Flush()
      requires ring.Valid()
      modifies this`wire, ring`overflow
      ensures ring.Valid() && ring.overflow == 0
      ensures wire == old(wire) + (if old(ring.overflow) > 0 then [Overflow(old(ring.overflow))] else [])
    {
      if ring.overflow > 0 {
        wire := wire + [Overflow(ring.overflow)];
        ring.overflow := 0;
      }
    }
  }

  lemma LastOfSnoc<E>(h: seq<E>, e: E)
    ensures LastOf(h + [e], CAPACITY)
            == if |h| >= CAPACITY then LastOf(h, CAPACITY)[1..] + [e] else LastOf(h, CAPACITY) + [e]
  {}

  /** Message k leaves the ring and reaches the wire. */
  lemma TakeNext<M>(was: seq<M>, k: nat)
    requires k < |was|
    ensures was[k..][0] == was[k] && was[k..][1..] == was[k + 1..]
    ensures Messages(was[..k + 1]) == Messages(was[..k]) + [Message(was[k])]
  {
    assert was[..k + 1] == was[..k] + [was[k]];
    MessagesSnoc(was[..k], was[k]);
  }

  lemma {:induction false} MessagesSnoc<M>(ms: seq<M>, m: M)
    ensures Messages(ms + [m]) == Messages(ms) + [Message(m)]
  {
    if ms == [] {
      assert [m][1..] == [];
    } else {
      MessagesSnoc(ms[1..], m);
      assert (ms + [m])[1..] == ms[1..] + [m];
    }
  }
}
