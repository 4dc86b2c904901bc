/** The incoming queues: rings of 16 message handles, with 0 for an empty cell. */
module NngQueues {
  import opened Tables
  import opened NngSpec

  datatype Queue = Queue(cells: seq<nat>, head: nat, tail: nat, count: nat)

  /** The cells read from the head on, around the end. */
  ghost function Around(q: Queue): seq<nat>
    requires q.head <= |q.cells|
  {
    q.cells[q.head..] + q.cells[..q.head]
  }

  predicate InBounds(q: Queue) {
    |q.cells| == QUEUE_DEPTH && q.head < QUEUE_DEPTH && q.count <= QUEUE_DEPTH
    && q.tail == (q.head + q.count) % 16
  }

  ghost predicate AllNull(cells: seq<nat>) { forall i :: 0 <= i < |cells| ==> cells[i] == 0 }

  ghost predicate NoneNull(cells: seq<nat>) { forall i :: 0 <= i < |cells| ==> cells[i] != 0 }

  /** The window from head to tail holds the messages; all cells outside it are null. */
  ghost predicate QueueOk(q: Queue) {
    InBounds(q) && NoneNull(Around(q)[..q.count]) && AllNull(Around(q)[q.count..])
  }

  /** The queued handles, oldest first. */
  ghost function Items(q: Queue): (r: seq<nat>)
    ensures InBounds(q) ==> |r| == q.count
  {
    if InBounds(q) then Around(q)[..q.count] else []
  }

  function Empty(): Queue { Queue(seq(QUEUE_DEPTH, _ => 0), 0, 0, 0) }

  function Next(i: nat): nat { (i + 1) % 16 }

  function Enqueued(q: Queue, p: nat): Queue
    requires InBounds(q)
  {
    Queue(q.cells[q.tail := p], q.head, Next(q.tail), q.count + 1)
  }

  function Dequeued(q: Queue): Queue
    requires InBounds(q) && q.count > 0
  {
    Queue(q.cells[q.head := 0], Next(q.head), q.tail, q.count - 1)
  }

  lemma AroundTail(q: Queue, p: nat)
    requires InBounds(q) && q.count < QUEUE_DEPTH
    ensures Around(Enqueued(q, p)) == Around(q)[q.count := p] && InBounds(Enqueued(q, p))
  {
    if q.head + q.count < 16 {
      assert q.tail == q.head + q.count;
    } else {
      assert q.tail == q.head + q.count - 16;
    }
  }

  lemma WindowGrows(a: seq<nat>, k: nat, p: nat)
    requires k < |a| && p != 0 && NoneNull(a[..k]) && AllNull(a[k..])
    ensures a[k := p][..k + 1] == a[..k] + [p]
    ensures NoneNull(a[k := p][..k + 1]) && AllNull(a[k := p][k + 1..])
  {
    assert a[k := p][k + 1..] == a[k..][1..];
  }

  /** Enqueueing appends at the back of the FIFO. */
  lemma EnqueueAppends(q: Queue, p: nat)
    requires QueueOk(q) && q.count < QUEUE_DEPTH && p != 0
    ensures QueueOk(Enqueued(q, p)) && Items(Enqueued(q, p)) == Items(q) + [p]
  {
    AroundTail(q, p);
    WindowGrows(Around(q), q.count, p);
  }

  /** Dequeueing takes the oldest handle. */
  lemma DequeueTakes(q: Queue)
    requires QueueOk(q) && q.count > 0
    ensures q.cells[q.head] == Items(q)[0] != 0
    ensures QueueOk(Dequeued(q)) && Items(Dequeued(q)) == Items(q)[1..]
  {
    var a := Around(q);
    var b := a[1..] + [0];
    assert a[0] == q.cells[q.head] && a[..q.count][0] == a[0];
    assert Around(Dequeued(q)) == b;
    assert b[..q.count - 1] == a[..q.count][1..];
    assert b[q.count - 1..] == a[q.count..] + [0];
  }

  /** How often a handle occurs. */
  ghost function Occurs(s: seq<nat>, p: nat): nat {
    if s == [] then 0 else Occurs(s[..|s| - 1], p) + if s[|s| - 1] == p then 1 else 0
  }

  lemma {:induction false} OccursConcat(a: seq<nat>, b: seq<nat>, p: nat)
    ensures Occurs(a + b, p) == Occurs(a, p) + Occurs(b, p)
  {
    if b == [] {
      assert a + b == a;
    } else {
      OccursConcat(a, b[..|b| - 1], p);
      assert (a + b)[..|a + b| - 1] == a + b[..|b| - 1];
    }
  }

  lemma {:induction false} OccursIn(s: seq<nat>, p: nat)
    ensures Occurs(s, p) > 0 <==> p in s
  {
    if s != [] {
      OccursIn(s[..|s| - 1], p);
      assert s == s[..|s| - 1] + [s[|s| - 1]];
    }
  }

  /** A scan over all cells, in array order, meets exactly the queued handles. */
  lemma CellsAreItems(q: Queue, p: nat)
    requires QueueOk(q)
    ensures Occurs(Items(q), p) == if p == 0 then 0 else Occurs(q.cells, p)
  {
    var a, h := Around(q), q.head;
    assert q.cells == q.cells[..h] + q.cells[h..];
    OccursConcat(q.cells[..h], q.cells[h..], p);
    OccursConcat(q.cells[h..], q.cells[..h], p);
    assert a == a[..q.count] + a[q.count..];
    OccursConcat(a[..q.count], a[q.count..], p);
    OccursIn(a[..q.count], p);
    OccursIn(a[q.count..], p);
  }

  lemma OccursOnce(s: seq<nat>, j: nat)
    requires j < |s|
    ensures Occurs(s, s[j]) >= 1
    ensures Occurs(s, s[j]) == 1 ==> s[j] !in s[..j]
  {
    assert s == s[..j + 1] + s[j + 1..];
    assert s[..j + 1][..j] == s[..j];
    OccursConcat(s[..j + 1], s[j + 1..], s[j]);
    OccursIn(s[..j], s[j]);
  }

  // ----------------------------------------------------------- all queues together

  ghost predicate OkTo(qs: seq<Queue>, k: nat)
    requires k <= |qs|
  {
    k == 0 || (OkTo(qs, k - 1) && QueueOk(qs[k - 1]))
  }

  ghost predicate QueuesOk(qs: seq<Queue>) { OkTo(qs, |qs|) }

  lemma {:induction false} OkToAt(qs: seq<Queue>, k: nat, i: nat)
    requires i < k <= |qs| && OkTo(qs, k)
    ensures QueueOk(qs[i])
  {
    if i < k - 1 { OkToAt(qs, k - 1, i); }
  }

  lemma QueuesOkAt(qs: seq<Queue>, i: nat)
    requires QueuesOk(qs) && i < |qs|
    ensures QueueOk(qs[i])
  {
    OkToAt(qs, |qs|, i);
  }

  lemma {:induction false} OkToUpdate(qs: seq<Queue>, k: nat, i: nat, q: Queue)
    requires i < |qs| && k <= |qs| && OkTo(qs, k) && QueueOk(q)
    ensures OkTo(qs[i := q], k)
  {
    if k > 0 { OkToUpdate(qs, k - 1, i, q); }
  }

  lemma QueuesOkUpdate(qs: seq<Queue>, i: nat, q: Queue)
    requires QueuesOk(qs) && i < |qs| && QueueOk(q)
    ensures QueuesOk(qs[i := q])
  {
    OkToUpdate(qs, |qs|, i, q);
  }

  ghost function SumTo(s: seq<nat>, k: nat): nat
    requires k <= |s|
  {
    if k == 0 then 0 else SumTo(s, k - 1) + s[k - 1]
  }

  lemma {:induction false} SumUpdate(s: seq<nat>, k: nat, i: nat, v: nat)
    requires i < |s| && k <= |s|
    ensures SumTo(s[i := v], k) == SumTo(s, k) + if i < k then v - s[i] else 0
    ensures i < k ==> s[i] <= SumTo(s, k)
  {
    if k > 0 { SumUpdate(s, k - 1, i, v); }
  }

  lemma {:induction false} SumZero(s: seq<nat>, k: nat)
    requires k <= |s| && forall i :: 0 <= i < k ==> s[i] == 0
    ensures SumTo(s, k) == 0
  {
    if k > 0 { SumZero(s, k - 1); }
  }

  /** How often a handle occurs in each queue. */
  ghost function Counts(qs: seq<Queue>, p: nat): seq<nat> {
    seq(|qs|, i requires 0 <= i < |qs| => Occurs(Items(qs[i]), p))
  }

  /** In how many queue cells a handle sits. */
  ghost function Queued(qs: seq<Queue>, p: nat): nat { SumTo(Counts(qs, p), |qs|) }

  lemma QueuedUpdate(qs: seq<Queue>, i: nat, q: Queue, p: nat)
    requires i < |qs|
    ensures Queued(qs[i := q], p) == Queued(qs, p) - Occurs(Items(qs[i]), p) + Occurs(Items(q), p)
    ensures Occurs(Items(qs[i]), p) <= Queued(qs, p)
  {
    SumUpdate(Counts(qs, p), |qs|, i, Occurs(Items(q), p));
    assert Counts(qs[i := q], p) == Counts(qs, p)[i := Occurs(Items(q), p)];
  }

  function BodyOf(live: map<nat, Message>, p: nat): Body {
    if p in live then live[p].body else []
  }

  ghost function Bodies(items: seq<nat>, live: map<nat, Message>): seq<Body> {
    seq(|items|, i requires 0 <= i < |items| => BodyOf(live, items[i]))
  }

  /** The bodies waiting at each socket. */
  ghost function Contents(qs: seq<Queue>, live: map<nat, Message>): (r: seq<seq<Body>>)
    ensures |r| == |qs|
  {
    seq(|qs|, i requires 0 <= i < |qs| => Bodies(Items(qs[i]), live))
  }

  lemma ContentsAt(qs: seq<Queue>, live: map<nat, Message>, i: nat)
    requires i < |qs|
    ensures Contents(qs, live)[i] == Bodies(Items(qs[i]), live)
    ensures InBounds(qs[i]) ==> |Contents(qs, live)[i]| == qs[i].count
  {}

  lemma ContentsUpdate(qs: seq<Queue>, live: map<nat, Message>, i: nat, q: Queue)
    requires i < |qs|
    ensures Contents(qs[i := q], live) == Contents(qs, live)[i := Bodies(Items(q), live)]
  {}

  lemma BodiesFrame(items: seq<nat>, live: map<nat, Message>, live': map<nat, Message>)
    requires forall x {:trigger Occurs(items, x)} :: Occurs(items, x) > 0 ==> BodyOf(live, x) == BodyOf(live', x)
    ensures Bodies(items, live) == Bodies(items, live')
  {
    forall i | 0 <= i < |items| ensures BodyOf(live, items[i]) == BodyOf(live', items[i]) { OccursIn(items, items[i]); }
  }

  /** Messages that no queue holds may change or go without the queues noticing. */
  lemma ContentsFrame(qs: seq<Queue>, live: map<nat, Message>, live': map<nat, Message>)
    requires forall x {:trigger Queued(qs, x)} :: Queued(qs, x) > 0 ==> BodyOf(live, x) == BodyOf(live', x)
    ensures Contents(qs, live) == Contents(qs, live')
  {
    forall i | 0 <= i < |qs| ensures Bodies(Items(qs[i]), live) == Bodies(Items(qs[i]), live') {
      forall x ensures Occurs(Items(qs[i]), x) <= Queued(qs, x) { QueuedUpdate(qs, i, qs[i], x); }
      BodiesFrame(Items(qs[i]), live, live');
    }
  }

  // -------------------------------------------------------------------- ownership

  /** Every queued handle is a live message with a small buffer, and sits in one cell only. */
  ghost predicate Owned(qs: seq<Queue>, live: map<nat, Message>) {
    forall p {:trigger Queued(qs, p)} :: Queued(qs, p) > 0 ==> p in live && live[p].small && Queued(qs, p) == 1
  }

  /** The messages the callers own: live and in no queue. */
  ghost function Held(qs: seq<Queue>, live: map<nat, Message>): map<nat, Message> {
    map p | p in live && Queued(qs, p) == 0 :: live[p]
  }

  /** A new message at the back of one queue: how often each handle is queued. */
  lemma QueuedMore(qs: seq<Queue>, i: nat, p: nat, x: nat)
    requires i < |qs| && QueueOk(qs[i]) && qs[i].count < QUEUE_DEPTH && p != 0
    ensures Queued(qs[i := Enqueued(qs[i], p)], x) == Queued(qs, x) + if x == p then 1 else 0
  {
    EnqueueAppends(qs[i], p);
    QueuedUpdate(qs, i, Enqueued(qs[i], p), x);
    OccursConcat(Items(qs[i]), [p], x);
  }

  lemma QueuedLess(qs: seq<Queue>, i: nat, x: nat)
    requires i < |qs| && QueueOk(qs[i]) && qs[i].count > 0
    ensures Queued(qs, x) == Queued(qs[i := Dequeued(qs[i])], x) + if x == qs[i].cells[qs[i].head] then 1 else 0
  {
    var items, p := Items(qs[i]), qs[i].cells[qs[i].head];
    DequeueTakes(qs[i]);
    QueuedUpdate(qs, i, Dequeued(qs[i]), x);
    assert items == [p] + items[1..];
    OccursConcat([p], items[1..], x);
  }

  ghost predicate OneMore(qs: seq<Queue>, qs': seq<Queue>, p: nat) {
    forall x {:trigger Queued(qs', x)} :: Queued(qs', x) == Queued(qs, x) + if x == p then 1 else 0
  }

  lemma OwnedMore(qs: seq<Queue>, qs': seq<Queue>, live: map<nat, Message>, p: nat, m: Message)
    requires Owned(qs, live) && OneMore(qs, qs', p) && p !in live && m.small
    ensures Queued(qs, p) == 0 && Owned(qs', live[p := m]) && Held(qs', live[p := m]) == Held(qs, live)
  {
    assert Queued(qs, p) == 0;
  }

  lemma OwnedLess(qs: seq<Queue>, qs': seq<Queue>, live: map<nat, Message>, p: nat)
    requires Owned(qs, live) && OneMore(qs', qs, p)
    ensures p in live && live[p].small && p !in Held(qs, live)
    ensures Owned(qs', live) && Held(qs', live) == Held(qs, live)[p := live[p]]
  {
    assert Queued(qs, p) == 1;
    forall x ensures Queued(qs, x) == Queued(qs', x) + if x == p then 1 else 0 {}
  }

  /** A fresh small message goes to the back of queue i. */
  lemma DeliverView(qs: seq<Queue>, live: map<nat, Message>, i: nat, p: nat, m: Message)
    requires Owned(qs, live) && i < |qs| && QueueOk(qs[i]) && qs[i].count < QUEUE_DEPTH
    requires p !in live && p != 0 && m.small
    ensures Owned(qs[i := Enqueued(qs[i], p)], live[p := m])
    ensures Held(qs[i := Enqueued(qs[i], p)], live[p := m]) == Held(qs, live)
    ensures Contents(qs[i := Enqueued(qs[i], p)], live[p := m])
            == Contents(qs, live)[i := Contents(qs, live)[i] + [m.body]]
  {
    var q := Enqueued(qs[i], p);
    forall x ensures Queued(qs[i := q], x) == Queued(qs, x) + if x == p then 1 else 0 { QueuedMore(qs, i, p, x); }
    OwnedMore(qs, qs[i := q], live, p, m);
    ContentsFrame(qs, live, live[p := m]);
    ContentsUpdate(qs, live[p := m], i, q);
    ContentsAt(qs, live[p := m], i);
    EnqueueAppends(qs[i], p);
    BodiesSnoc(Items(qs[i]), p, live[p := m]);
  }

  lemma BodiesSnoc(items: seq<nat>, p: nat, live: map<nat, Message>)
    ensures Bodies(items + [p], live) == Bodies(items, live) + [BodyOf(live, p)]
  {}

  lemma BodiesTail(items: seq<nat>, live: map<nat, Message>)
    requires items != []
    ensures Bodies(items, live)[0] == BodyOf(live, items[0])
    ensures Bodies(items[1..], live) == Bodies(items, live)[1..]
  {}

  /** The oldest message of queue i goes to the caller. */
  lemma ReceiveView(qs: seq<Queue>, live: map<nat, Message>, i: nat)
    requires Owned(qs, live) && i < |qs| && QueueOk(qs[i]) && qs[i].count > 0
    ensures Contents(qs, live)[i] != []
    ensures var qs', p := qs[i := Dequeued(qs[i])], qs[i].cells[qs[i].head];
            && Owned(qs', live) && p !in Held(qs, live)
            && Contents(qs', live) == Contents(qs, live)[i := Contents(qs, live)[i][1..]]
            && Held(qs', live) == Held(qs, live)[p := Message(Contents(qs, live)[i][0], true)]
  {
    var q, p := Dequeued(qs[i]), qs[i].cells[qs[i].head];
    forall x ensures Queued(qs, x) == Queued(qs[i := q], x) + if x == p then 1 else 0 { QueuedLess(qs, i, x); }
    OwnedLess(qs, qs[i := q], live, p);
    ContentsUpdate(qs, live, i, q);
    ContentsAt(qs, live, i);
    DequeueTakes(qs[i]);
    BodiesTail(Items(qs[i]), live);
  }

  /** The caller's own message changes. */
  lemma HeldView(qs: seq<Queue>, live: map<nat, Message>, p: nat, m: Message)
    requires Owned(qs, live) && Queued(qs, p) == 0
    ensures Owned(qs, live[p := m]) && Contents(qs, live[p := m]) == Contents(qs, live)
    ensures Held(qs, live[p := m]) == Held(qs, live)[p := m]
  {
    ContentsFrame(qs, live, live[p := m]);
  }

  /** The caller's own message goes. */
  lemma DropView(qs: seq<Queue>, live: map<nat, Message>, live': map<nat, Message>, p: nat)
    requires Owned(qs, live) && Queued(qs, p) == 0
    requires live' == Without<nat, Message>(live, p)
    ensures Owned(qs, live') && Contents(qs, live') == Contents(qs, live)
    ensures Held(qs, live') == Without<nat, Message>(Held(qs, live), p)
  {
    ContentsFrame(qs, live, live');
  }

  lemma {:induction false} OkAtStart(qs: seq<Queue>, k: nat)
    requires k <= |qs| && forall i :: 0 <= i < k ==> qs[i] == Empty()
    ensures OkTo(qs, k)
  {
    if k > 0 { OkAtStart(qs, k - 1); }
  }

  lemma NoneQueued(qs: seq<Queue>, live: map<nat, Message>)
    requires forall i :: 0 <= i < |qs| ==> qs[i] == Empty()
    ensures QueuesOk(qs) && forall p :: Queued(qs, p) == 0
    ensures forall i :: 0 <= i < |qs| ==> Contents(qs, live)[i] == []
  {
    OkAtStart(qs, |qs|);
    assert Items(Empty()) == [];
    forall p ensures Queued(qs, p) == 0 { SumZero(Counts(qs, p), |qs|); }
  }

  // ----------------------------------------------------------------------- closing

  ghost function Names(cells: seq<nat>): set<nat> { set p | p in cells && p != 0 }

  ghost function NonNull(cells: seq<nat>): nat {
    if cells == [] then 0 else NonNull(cells[..|cells| - 1]) + if cells[|cells| - 1] != 0 then 1 else 0
  }

  lemma {:induction false} NonNullConcat(a: seq<nat>, b: seq<nat>)
    ensures NonNull(a + b) == NonNull(a) + NonNull(b)
  {
    if b == [] {
      assert a + b == a;
    } else {
      NonNullConcat(a, b[..|b| - 1]);
      assert (a + b)[..|a + b| - 1] == a + b[..|b| - 1];
    }
  }

  lemma {:induction false} NonNullUniform(s: seq<nat>)
    ensures NoneNull(s) ==> NonNull(s) == |s|
    ensures AllNull(s) ==> NonNull(s) == 0
  {
    if s != [] { NonNullUniform(s[..|s| - 1]); }
  }

  lemma CountIsNonNull(q: Queue)
    requires QueueOk(q)
    ensures NonNull(q.cells) == q.count
  {
    var a, h := Around(q), q.head;
    assert q.cells == q.cells[..h] + q.cells[h..];
    NonNullConcat(q.cells[..h], q.cells[h..]);
    NonNullConcat(q.cells[h..], q.cells[..h]);
    assert a == a[..q.count] + a[q.count..];
    NonNullConcat(a[..q.count], a[q.count..]);
    NonNullUniform(a[..q.count]);
    NonNullUniform(a[q.count..]);
  }

  /** The next message of a queue being emptied is still live. */
  lemma NextToFree(qs: seq<Queue>, live: map<nat, Message>, i: nat, j: nat)
    requires Owned(qs, live) && i < |qs| && QueueOk(qs[i]) && j < QUEUE_DEPTH && qs[i].cells[j] != 0
    ensures qs[i].cells[j] in live && live[qs[i].cells[j]].small && qs[i].cells[j] !in qs[i].cells[..j]
  {
    var p := qs[i].cells[j];
    CellsAreItems(qs[i], p);
    QueuedUpdate(qs, i, qs[i], p);
    OccursOnce(qs[i].cells, j);
  }

  /** The k-th body waiting at socket i is that of the k-th handle in its ring. */
  lemma WaitingIsLive(qs: seq<Queue>, live: map<nat, Message>, i: nat, k: nat)
    requires Owned(qs, live) && i < |qs| && k < |Contents(qs, live)[i]|
    ensures k < |Items(qs[i])| && Items(qs[i])[k] in live && live[Items(qs[i])[k]].small
    ensures Contents(qs, live)[i][k] == live[Items(qs[i])[k]].body
  {
    ContentsAt(qs, live, i);
    OccursOnce(Items(qs[i]), k);
    QueuedUpdate(qs, i, qs[i], Items(qs[i])[k]);
  }

  /** The queues lose exactly the handles in `gone`. */
  ghost predicate Lose(qs: seq<Queue>, qs': seq<Queue>, gone: set<nat>) {
    forall x {:trigger Queued(qs', x)} ::
      Queued(qs', x) == (if x in gone then 0 else Queued(qs, x)) && (x in gone ==> Queued(qs, x) > 0)
  }

  lemma OwnedLost(qs: seq<Queue>, qs': seq<Queue>, live: map<nat, Message>, gone: set<nat>)
    requires Owned(qs, live) && Lose(qs, qs', gone)
    ensures Owned(qs', live - gone) && Held(qs', live - gone) == Held(qs, live)
    ensures Contents(qs', live - gone) == Contents(qs', live)
  {
    forall x ensures Queued(qs', x) == (if x in gone then 0 else Queued(qs, x)) && (x in gone ==> Queued(qs, x) > 0) {}
    ContentsFrame(qs', live, live - gone);
  }

  /** Emptying queue i takes its messages away and nothing else. */
  lemma CloseView(qs: seq<Queue>, live: map<nat, Message>, i: nat)
    requires Owned(qs, live) && i < |qs| && QueueOk(qs[i])
    ensures Owned(qs[i := Empty()], live - Names(qs[i].cells))
    ensures Held(qs[i := Empty()], live - Names(qs[i].cells)) == Held(qs, live)
    ensures Contents(qs[i := Empty()], live - Names(qs[i].cells)) == Contents(qs, live)[i := []]
  {
    var qs', gone := qs[i := Empty()], Names(qs[i].cells);
    forall x
      ensures Queued(qs', x) == (if x in gone then 0 else Queued(qs, x)) && (x in gone ==> Queued(qs, x) > 0)
    {
      ClosedOut(qs, live, i, x);
    }
    OwnedLost(qs, qs', live, gone);
    ContentsUpdate(qs, live, i, Empty());
  }

  lemma ClosedOut(qs: seq<Queue>, live: map<nat, Message>, i: nat, x: nat)
    requires Owned(qs, live) && i < |qs| && QueueOk(qs[i])
    ensures Queued(qs[i := Empty()], x) == if x in Names(qs[i].cells) then 0 else Queued(qs, x)
    ensures x in Names(qs[i].cells) ==> Queued(qs, x) > 0
  {
    CellsAreItems(qs[i], x);
    OccursIn(qs[i].cells, x);
    QueuedUpdate(qs, i, Empty(), x);
    assert Items(Empty()) == [];
  }
}
