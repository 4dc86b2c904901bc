/** The messaging layer's own tables and loops, each call proved to make the step NngSpec describes. */
module Nng {
  import opened Widths
  import opened Tables
  import opened Heaps
  import opened NngSpec
  import opened NngMemory
  import opened NngPool
  import opened NngQueues
  import NngLaws
  import NngIntact

  lemma {:induction false} PeersGrow(n: Net, id: nat, proto: int, j: nat, k: nat)
    requires j <= k <= |n.pipes|
    ensures PeersUpTo(n, id, proto, j) <= PeersUpTo(n, id, proto, k)
  {
    if j < k { PeersGrow(n, id, proto, j, k - 1); }
  }

  ghost function Initially(small: int, medium: int): Net {
    Net(seq(MAX_SOCKETS, _ => None), seq(MAX_PIPES, _ => None), seq(MAX_SOCKETS, _ => State(0, -1, -1, 0, false, [])),
        seq(MAX_SOCKETS, _ => []), map[], 0, small, medium, true)
  }

  /** Compares the first n bytes of two buffers. */
  method SameBytes(a: Body, b: Body, n: nat) returns (same: bool)
    requires n <= |a| && n <= |b|
    ensures same <==> a[..n] == b[..n]
  {
    for i := 0 to n
      invariant a[..i] == b[..i]
    {
      if a[i] != b[i] {
        assert a[..n][i] != b[..n][i];
        return false;
      }
    }
    return true;
  }

  /** A subscriber wants a body if one of its topics is a prefix of it. */
  method SubAccepts(topics: seq<Body>, body: Body) returns (ok: bool)
    ensures ok <==> exists i :: 0 <= i < |topics| && IsPrefix(topics[i], body)
  {
    for i := 0 to |topics|
      invariant forall k :: 0 <= k < i ==> !IsPrefix(topics[k], body)
    {
      if |topics[i]| == 0 {
        assert IsPrefix(topics[i], body);
        return true;
      }
      if |body| >= |topics[i]| {
        var same := SameBytes(body, topics[i], |topics[i]|);
        if same {
          assert IsPrefix(topics[i], body);
          return true;
        }
      }
    }
    return false;
  }

  /** Frees a list of messages, passing over null entries. */
  method FreeAll(pool: Pool, cells: seq<nat>)
    requires pool.Valid()
    requires forall i :: 0 <= i < |cells| && cells[i] != 0 ==>
               cells[i] in pool.live && pool.live[cells[i]].small && cells[i] !in cells[..i]
    modifies pool, pool.heap, pool.heap.blocks, pool.slots
    ensures pool.Valid() && pool.live == old(pool.live) - Names(cells)
    ensures |pool.live| == |old(pool.live)| - NonNull(cells)
    ensures pool.small == old(pool.small) + 2 * NonNull(cells) && pool.medium == old(pool.medium)
    ensures pool.intact == old(pool.intact)
  {
    ghost var live := pool.live;
    for i := 0 to |cells|
      invariant pool.Valid() && pool.intact == old(pool.intact)
      invariant pool.live == live - Names(cells[..i]) && |pool.live| == |live| - NonNull(cells[..i])
      invariant pool.small == old(pool.small) + 2 * NonNull(cells[..i]) && pool.medium == old(pool.medium)
    {
      FreeNext(pool, cells, i, live);
    }
    assert cells[..|cells|] == cells;
  }

  method FreeNext(pool: Pool, cells: seq<nat>, i: nat, ghost live: map<nat, Message>)
    requires pool.Valid() && i < |cells| && pool.live == live - Names(cells[..i])
    requires cells[i] != 0 ==> cells[i] in live && live[cells[i]].small && cells[i] !in cells[..i]
    modifies pool, pool.heap, pool.heap.blocks, pool.slots
    ensures pool.Valid() && pool.live == live - Names(cells[..i + 1]) && pool.intact == old(pool.intact)
    ensures NonNull(cells[..i + 1]) == NonNull(cells[..i]) + if cells[i] != 0 then 1 else 0
    ensures |pool.live| == |old(pool.live)| - if cells[i] != 0 then 1 else 0
    ensures pool.small == old(pool.small) + (if cells[i] != 0 then 2 else 0) && pool.medium == old(pool.medium)
  {
    assert cells[..i + 1][..i] == cells[..i];
    NamesNext(cells, i);
    if cells[i] != 0 {
      RemoveNext(live, cells, i);
      pool.FreeSmall(cells[i]);
    }
  }

  lemma NamesNext(cells: seq<nat>, i: nat)
    requires i < |cells|
    ensures Names(cells[..i + 1]) == Names(cells[..i]) + if cells[i] != 0 then {cells[i]} else {}
  {
    assert cells[..i + 1] == cells[..i] + [cells[i]];
  }

  lemma RemoveNext(live: map<nat, Message>, cells: seq<nat>, i: nat)
    requires i < |cells| && cells[i] != 0 && cells[i] in live && cells[i] !in cells[..i]
    ensures cells[i] in live - Names(cells[..i])
    ensures live - Names(cells[..i]) - {cells[i]} == live - Names(cells[..i + 1])
  {
    NamesNext(cells, i);
  }

  method FindTopic(topics: seq<Body>, topic: Body) returns (i: nat)
    ensures i == IndexOf(topics, topic, 0)
  {
    for j := 0 to |topics|
      invariant IndexOf(topics, topic, 0) >= j
    {
      if |topics[j]| == |topic| {
        var same := |topic| == 0;
        if !same { same := SameBytes(topics[j], topic, |topic|); }
        assert topics[j][..|topic|] == topics[j] && topic[..|topic|] == topic;
        if same { return j; }
      }
    }
    return |topics|;
  }

  // ---------------------------------------------------- queues and messages as the net shows them

  ghost predicate Shows(n: Net, qs: seq<Queue>, live: map<nat, Message>) {
    && QueuesOk(qs) && Owned(qs, live)
    && n.queues == Contents(qs, live) && n.held == Held(qs, live) && n.used == |live|
  }

  /** Calls on messages leave the rest alone. */
  ghost predicate SameTables(n: Net, m: Net) {
    m.socks == n.socks && m.pipes == n.pipes && m.states == n.states && m.intact == n.intact
  }

  /** The step a specification describes, as long as no body has run over its block. */
  ghost predicate Follows(m: Net, spec: Net) { m.intact == spec.intact && (m.intact ==> m == spec) }

  lemma FollowsNext(n: Net, fan: Fan, peers: seq<nat>, body: Body, i: nat, m: Net, m': Net)
    requires i < |peers| && AllSockets(peers) && |n.queues| == MAX_SOCKETS && |n.states| == MAX_SOCKETS
    requires |m.queues| == MAX_SOCKETS && |m.states| == MAX_SOCKETS && Follows(m, FanOut(n, fan, peers, body, i))
    requires if m.intact then m' == FanOne(m, fan, peers[i], body) else !m'.intact
    ensures Follows(m', FanOut(n, fan, peers, body, i + 1))
  {}

  /** Protocols that copy one message to several sockets. */
  ghost predicate FansOut(n: Net, id: int) { Open(n, id) && n.socks[id].value in {PUB, BUS, SURVEYOR} }

  lemma ShowsNothing(small: int, medium: int, qs: seq<Queue>)
    requires |qs| == MAX_SOCKETS && forall i :: 0 <= i < |qs| ==> qs[i] == Empty()
    ensures Shows(Initially(small, medium), qs, map[])
    ensures small >= 0 && medium >= 0 ==> NngLaws.Initial(Initially(small, medium))
  {
    NoneQueued(qs, map[]);
  }

  lemma ShowsAlloc(n: Net, qs: seq<Queue>, live: map<nat, Message>, p: nat, size: nat)
    requires Shows(n, qs, live) && p !in live
    ensures Shows(FreshMessage(n, p, size), qs, live[p := Message([], size <= SMALL_BLOCK)])
    ensures p !in n.held && SameTables(n, FreshMessage(n, p, size))
  {
    assert Queued(qs, p) == 0;
    HeldView(qs, live, p, Message([], size <= SMALL_BLOCK));
    MapSizes<nat, Message>(live, p, Message([], size <= SMALL_BLOCK));
  }

  lemma ShowsHeld(n: Net, qs: seq<Queue>, live: map<nat, Message>, p: nat)
    requires Shows(n, qs, live) && Queued(qs, p) == 0
    ensures p in live <==> p in n.held
    ensures p in live ==> n.held[p] == live[p]
  {}

  lemma ShowsFree(n: Net, qs: seq<Queue>, live: map<nat, Message>, p: nat)
    requires Shows(n, qs, live) && Queued(qs, p) == 0 && p in live
    ensures p in n.held && SameTables(n, DropHeld(n, p))
    ensures Shows(DropHeld(n, p), qs, Without<nat, Message>(live, p))
  {
    DropView(qs, live, Without<nat, Message>(live, p), p);
    WithoutOne<nat, Message>(live, p);
  }

  lemma ShowsAppend(n: Net, qs: seq<Queue>, live: map<nat, Message>, p: nat, m: Message)
    requires Shows(n, qs, live) && Queued(qs, p) == 0 && p in live
    ensures p in n.held && n.held[p] == live[p] && Shows(n.(held := n.held[p := m]), qs, live[p := m])
  {
    HeldView(qs, live, p, m);
    MapSizes<nat, Message>(live, p, m);
  }

  lemma ShowsDeliver(n: Net, qs: seq<Queue>, live: map<nat, Message>, id: nat, p: nat, body: Body)
    requires Shows(n, qs, live) && id < |qs|
    ensures |n.queues| == |qs| && QueueOk(qs[id]) && |n.queues[id]| == qs[id].count
    ensures qs[id].count < QUEUE_DEPTH && p !in live && p != 0 ==>
              Shows(n.(queues := n.queues[id := n.queues[id] + [body]], used := n.used + 1),
                    qs[id := Enqueued(qs[id], p)], live[p := Message(body, true)])
  {
    QueuesOkAt(qs, id);
    ContentsAt(qs, live, id);
    if qs[id].count < QUEUE_DEPTH && p !in live && p != 0 {
      DeliverView(qs, live, id, p, Message(body, true));
      EnqueueAppends(qs[id], p);
      QueuesOkUpdate(qs, id, Enqueued(qs[id], p));
      MapSizes<nat, Message>(live, p, Message(body, true));
    }
  }

  class Sockets {
    const pool: Pool
    const queues: array<Queue>
    const socks: array<Option<int>>
    const states: array<State>
    const pipes: array<Option<Pipe>>
    ghost var net: Net                // what the tables stand for

    /** No table shares storage with another. */
    ghost predicate Apart() {
      && pool as object != this && pool.heap as object != this
      && queues as object != pool as object && queues as object != pool.heap && queues as object != pool.heap.blocks
      && queues as object != pool.slots && queues as object != socks && queues as object != states && queues as object != pipes
      && socks as object != pool as object && socks as object != pool.heap && socks as object != pool.heap.blocks
      && socks as object != pool.slots && socks as object != states && socks as object != pipes
      && states as object != pool as object && states as object != pool.heap && states as object != pool.heap.blocks
      && states as object != pool.slots && states as object != pipes
      && pipes as object != pool as object && pipes as object != pool.heap && pipes as object != pool.heap.blocks
      && pipes as object != pool.slots
    }

    ghost predicate Valid()
      reads this, pool, pool.heap, pool.heap.blocks, pool.slots, queues, socks, states, pipes
    {
      && Apart() && pool.Valid() && Shape(net)
      && net.socks == socks[..] && net.pipes == pipes[..] && net.states == states[..]
      && Shows(net, queues[..], pool.live)
      && net.small == pool.small && net.medium == pool.medium && net.intact == pool.intact
    }

    constructor (heap: Heap, checksum: Body -> Word)
      requires heap.Valid()
      ensures Valid() && NngLaws.Initial(net) && net.intact && pool.heap == heap
      ensures net.small == old(heap.FreeIn(0)) && net.medium == old(heap.FreeIn(1))
      ensures fresh(pool) && fresh(pool.slots) && fresh(queues) && fresh(socks) && fresh(states) && fresh(pipes)
    {
      net := Initially(heap.FreeIn(0), heap.FreeIn(1));
      pool := new Pool(heap, checksum);
      queues := new Queue[MAX_SOCKETS](_ => Empty());
      socks := new Option<int>[MAX_SOCKETS](_ => None);
      states := new State[MAX_SOCKETS](_ => State(0, -1, -1, 0, false, []));
      pipes := new Option<Pipe>[MAX_PIPES](_ => None);
      new;
      ShowsNothing(net.small, net.medium, queues[..]);
    }

    /** While no body has run over its block, the bodies of the net, held or waiting, are the
        bytes that the heap holds behind their handles. */
    lemma NetIsInHeap(p: nat, id: nat, k: nat)
      requires Valid() && net.intact
      ensures p in net.held ==> BodyAt(pool.heap.mem, p) == net.held[p].body
      ensures id < MAX_SOCKETS && k < |net.queues[id]| ==>
                && k < |Items(queues[id])|
                && BodyAt(pool.heap.mem, Items(queues[id])[k]) == net.queues[id][k]
                && |net.queues[id][k]| <= SMALL_BLOCK
    {
      if p in net.held { pool.InHeap(p); }
      if id < MAX_SOCKETS && k < |net.queues[id]| {
        WaitingIsLive(queues[..], pool.live, id, k);
        pool.InHeap(Items(queues[id])[k]);
      }
    }

    // --------------------------------------------------------------------- helpers

    predicate Live(id: int)
      reads socks
    {
      0 <= id < socks.Length && socks[id].Some?
    }

    method Enqueue(id: nat, p: nat) returns (rv: int)
      requires id < queues.Length && InBounds(queues[id])
      modifies queues
      ensures rv == if old(queues[id]).count >= QUEUE_DEPTH then ENOMEM else OK
      ensures queues[..] == if rv == OK then old(queues[..])[id := Enqueued(old(queues[id]), p)] else old(queues[..])
    {
      var q := queues[id];
      if q.count >= QUEUE_DEPTH { return ENOMEM; }
      queues[id] := Queue(q.cells[q.tail := p], q.head, (q.tail + 1) % 16, q.count + 1);
      return OK;
    }

    /** Makes a copy of a message and queues it, or takes nothing. */
    method PutCopy(id: nat, src: nat) returns (rv: int, ghost p: nat)
      requires pool.Valid() && Apart() && id < queues.Length && InBounds(queues[id]) && src in pool.live
      modifies pool, pool.heap, pool.heap.blocks, pool.slots, queues
      ensures pool.Valid() && rv in {OK, ENOMEM} && (!old(pool.intact) ==> !pool.intact)
      ensures rv != OK ==> pool.live == old(pool.live) && queues[..] == old(queues[..])
                           && pool.small == old(pool.small) && pool.medium == old(pool.medium)
      ensures rv == OK ==> p != 0 && p !in old(pool.live) && p in pool.live && pool.live[p].small
                           && pool.live == old(pool.live)[p := pool.live[p]]
                           && old(queues[id]).count < QUEUE_DEPTH
                           && queues[..] == old(queues[..])[id := Enqueued(old(queues[id]), p)]
                           && |pool.live| == |old(pool.live)| + 1
                           && pool.small == old(pool.small) - 2 && pool.medium == old(pool.medium)
      ensures old(pool.intact) ==>
                var body, copied := old(pool.live)[src].body, |old(pool.live)| < MAX_MESSAGES && old(pool.small) >= 2;
                && rv == (if copied && old(queues[id]).count < QUEUE_DEPTH then OK else ENOMEM)
                && pool.intact == (copied ==> |body| <= SMALL_BLOCK)
                && (rv == OK ==> pool.live[p].body == body)
    {
      var copy;
      ghost var b;
      rv, copy, b := pool.Copy(src);
      p := copy;
      if rv == OK { rv := EnqueueOrDiscard(id, copy, old(pool.live), pool.live[copy]); }
    }

    /** Queues a new message, or gives it back. */
    method EnqueueOrDiscard(id: nat, p: nat, ghost was: map<nat, Message>, ghost m: Message) returns (rv: int)
      requires pool.Valid() && Apart() && id < queues.Length && InBounds(queues[id])
      requires p !in was && pool.live == was[p := m] && m.small
      modifies pool, pool.heap, pool.heap.blocks, pool.slots, queues
      ensures pool.Valid() && pool.intact == old(pool.intact)
      ensures rv == if old(queues[id]).count < QUEUE_DEPTH then OK else ENOMEM
      ensures pool.live == if rv == OK then old(pool.live) else was
      ensures queues[..] == if rv == OK then old(queues[..])[id := Enqueued(old(queues[id]), p)] else old(queues[..])
      ensures pool.small == old(pool.small) + (if rv == OK then 0 else 2) && pool.medium == old(pool.medium)
    {
      rv := Enqueue(id, p);
      if rv != OK { pool.Discard(p, was, m); }
    }

    /** Queues a copy of the caller's message at a socket, or changes no queue. */
    method DeliverCopy(id: nat, src: nat) returns (rv: int)
      requires Valid() && id < MAX_SOCKETS && src in net.held
      modifies this, pool, pool.heap, pool.heap.blocks, pool.slots, queues
      ensures Valid() && Routed(old(net), net) && net.states == old(net).states
      ensures old(net.intact) ==>
                var body := old(net).held[src].body;
                net == Deliver(old(net), id, body).0 && rv == Deliver(old(net), id, body).1
      ensures !old(net.intact) ==> !net.intact
    {
      ghost var n, live, qs, p := net, pool.live, queues[..], 0;
      pool.LiveMessage(src);
      ShowsDeliver(n, qs, live, id, p, []);
      rv, p := PutCopy(id, src);
      if rv == OK {
        ShowsDeliver(n, qs, live, id, p, pool.live[p].body);
        net := n.(queues := n.queues[id := n.queues[id] + [pool.live[p].body]], used := n.used + 1, small := n.small - 2);
      }
      net := net.(intact := pool.intact);
    }

    /** The peer that pipe i leads to, or -1. */
    method PeerAt(i: nat, id: nat, proto: int, ghost n: Net) returns (peer: int)
      requires n.socks == socks[..] && i < pipes.Length
      ensures peer >= -1 && PeerOf(n, pipes[i], id, proto) == if peer >= 0 then [peer] else []
    {
      if pipes[i].None? { return -1; }
      peer := -1;
      var pipe := pipes[i].value;
      if proto == BUS {
        if pipe.src == id { peer := pipe.dst; } else if pipe.dst == id { peer := pipe.src; }
      } else {
        if pipe.src == id { peer := pipe.dst; }
      }
      if !(peer >= 0 && Live(peer) && socks[peer].value == proto) { peer := -1; }
    }

    method CollectPeers(id: nat, proto: int, ghost n: Net) returns (peers: seq<nat>)
      requires n.socks == socks[..] && n.pipes == pipes[..] && pipes.Length == MAX_PIPES
      ensures peers == Peers(n, id, proto)
    {
      peers := [];
      var i := 0;
      while i < MAX_PIPES && |peers| < MAX_SOCKETS
        invariant i <= MAX_PIPES && |peers| <= MAX_SOCKETS
        invariant peers == PeersUpTo(n, id, proto, i)
      {
        var peer := PeerAt(i, id, proto, n);
        if peer >= 0 { peers := peers + [peer]; }
        i := i + 1;
      }
      PeersGrow(n, id, proto, i, |n.pipes|);
    }

    // -------------------------------------------------------------------- messages

    method MsgAlloc(size: nat) returns (rv: int, p: nat)
      requires Valid()
      modifies this, pool, pool.heap, pool.heap.blocks, pool.slots
      ensures Valid() && Legal(old(net), Alloc(size, p))
      ensures net == OnAlloc(old(net), size, p).0 && rv == OnAlloc(old(net), size, p).1
    {
      ghost var n, live := net, pool.live;
      if 0 in live { pool.LiveMessage(0); }
      ghost var b;
      rv, p, b := pool.Alloc(size);
      if rv == OK {
        ShowsAlloc(n, queues[..], live, p, size);
        net := FreshMessage(n, p, size);
      }
    }

    /** The caller passes a message of its own, or a pointer that is none. */
    method MsgFree(p: nat) returns (rv: int)
      requires Valid() && Queued(queues[..], p) == 0
      modifies this, pool, pool.heap, pool.heap.blocks, pool.slots
      ensures Valid()
      ensures net == OnFree(old(net), p).0 && rv == OnFree(old(net), p).1
    {
      ShowsHeld(net, queues[..], pool.live, p);
      var i := pool.Find(p);
      if i < 0 { return EINVAL; }
      FreeHeld(p);
      return OK;
    }

    method FreeHeld(p: nat)
      requires Valid() && p in net.held
      modifies this, pool, pool.heap, pool.heap.blocks, pool.slots
      ensures Valid() && net == DropHeld(old(net), p)
    {
      ShowsFree(net, queues[..], pool.live, p);
      var _ := pool.Free(p);
      net := DropHeld(net, p);
    }

    /** As long as no body has run over its block, an append does what it says. */
    method MsgAppend(p: nat, data: Body) returns (rv: int)
      requires Valid() && Queued(queues[..], p) == 0
      modifies this, pool, pool.heap`mem
      ensures Valid()
      ensures old(net.intact) ==> net == OnAppend(old(net), p, data).0 && rv == OnAppend(old(net), p, data).1
    {
      ghost var live, qs := pool.live, queues[..];
      rv := pool.Append(p, data);
      if rv == OK && |live[p].body| + |data| <= BODY_SIZE {
        ShowsAppend(net, qs, live, p, pool.live[p]);
        net := net.(held := net.held[p := pool.live[p]]);
      }
      net := net.(intact := pool.intact);
    }

    // -------------------------------------------------------------------- protocols

    /** Writes one protocol state. */
    method Assign(id: nat, s: State)
      requires Valid() && id < MAX_SOCKETS
      modifies this, states
      ensures Valid() && net == SetState(old(net), id, s)
    {
      states[id] := s;
      net := SetState(net, id, s);
    }

    /** A cursor that is past the end starts over. */
    method WhoseTurn(id: nat, count: nat) returns (i: nat)
      requires Valid() && id < MAX_SOCKETS && count > 0
      ensures i == Turn(net.states[id].cursor, count) && i < count
    {
      i := states[id].cursor;
      if i >= count { i := 0; }
    }

    method MoveCursor(id: nat, cursor: nat)
      requires Valid() && id < MAX_SOCKETS
      modifies this, states
      ensures Valid() && net == SetState(old(net), id, old(net).states[id].(cursor := cursor))
    {
      Assign(id, states[id].(cursor := cursor));
    }

    method PublishTo(id: nat, src: nat)
      requires Valid() && id < MAX_SOCKETS && src in net.held
      modifies this, pool, pool.heap, pool.heap.blocks, pool.slots, queues
      ensures Valid() && Routed(old(net), net) && (!old(net.intact) ==> !net.intact)
      ensures old(net.intact) ==> net == FanOne(old(net), ToSubscribers, id, old(net).held[src].body)
    {
      var body := pool.ReadBody(src);
      var wanted := SubAccepts(states[id].topics, body);
      if wanted { var _ := DeliverCopy(id, src); }
    }

    method Publish(id: nat, src: nat)
      requires Valid() && src in net.held
      modifies this, pool, pool.heap, pool.heap.blocks, pool.slots, queues
      ensures Valid() && Routed(old(net), net) && AllSockets(Peers(old(net), id, SUB))
      ensures var n, peers := old(net), Peers(old(net), id, SUB);
              Follows(net, FanOut(n, ToSubscribers, peers, n.held[src].body, |peers|))
    {
      ghost var n := net;
      PeersValid(n, id, SUB);
      var peers := CollectPeers(id, SUB, n);
      for i := 0 to |peers|
        invariant Valid() && Routed(n, net) && Follows(net, FanOut(n, ToSubscribers, peers, n.held[src].body, i))
      {
        ghost var m := net;
        PublishTo(peers[i], src);
        FollowsNext(n, ToSubscribers, peers, n.held[src].body, i, m, net);
      }
    }

    method BroadcastTo(id: nat, src: nat)
      requires Valid() && id < MAX_SOCKETS && src in net.held
      modifies this, pool, pool.heap, pool.heap.blocks, pool.slots, queues
      ensures Valid() && Routed(old(net), net) && (!old(net.intact) ==> !net.intact)
      ensures old(net.intact) ==> net == FanOne(old(net), ToAll, id, old(net).held[src].body)
    {
      var _ := DeliverCopy(id, src);
    }

    method Broadcast(id: nat, src: nat)
      requires Valid() && src in net.held
      modifies this, pool, pool.heap, pool.heap.blocks, pool.slots, queues
      ensures Valid() && Routed(old(net), net) && AllSockets(Peers(old(net), id, BUS))
      ensures var n, peers := old(net), Peers(old(net), id, BUS);
              Follows(net, FanOut(n, ToAll, peers, n.held[src].body, |peers|))
    {
      ghost var n := net;
      PeersValid(n, id, BUS);
      var peers := CollectPeers(id, BUS, n);
      for i := 0 to |peers|
        invariant Valid() && Routed(n, net) && Follows(net, FanOut(n, ToAll, peers, n.held[src].body, i))
      {
        ghost var m := net;
        BroadcastTo(peers[i], src);
        FollowsNext(n, ToAll, peers, n.held[src].body, i, m, net);
      }
    }

    method PushTo(id: nat, src: nat, peers: seq<nat>) returns (rv: int)
      requires Valid() && id < MAX_SOCKETS && src in net.held && AllSockets(peers)
      modifies this, pool, pool.heap, pool.heap.blocks, pool.slots, queues, states
      ensures Valid() && Routed(old(net), net) && (!old(net.intact) ==> !net.intact)
      ensures old(net.intact) ==>
                var spec := RoutePush(old(net), id, old(net).held[src].body, peers); net == spec.0 && rv == spec.1
    {
      if |peers| == 0 { return ENOTSUP; }
      var i := WhoseTurn(id, |peers|);
      rv := DeliverCopy(peers[i], src);
      MoveCursor(id, NextTurn(i, |peers|));
    }

    method RequestTo(id: nat, src: nat, peers: seq<nat>) returns (rv: int)
      requires Valid() && id < MAX_SOCKETS && src in net.held && AllSockets(peers)
      modifies this, pool, pool.heap, pool.heap.blocks, pool.slots, queues, states
      ensures Valid() && Routed(old(net), net) && (!old(net.intact) ==> !net.intact)
      ensures old(net.intact) ==>
                var spec := RouteRequest(old(net), id, old(net).held[src].body, peers); net == spec.0 && rv == spec.1
    {
      if |peers| == 0 { return ENOTSUP; }
      var i := WhoseTurn(id, |peers|);
      var rep := peers[i];
      rv := DeliverCopy(rep, src);
      if rv == OK { LeaveAddress(id, rep, NextTurn(i, |peers|)); }
    }

    /** A delivered request leaves its return address and moves the cursor on. */
    method LeaveAddress(id: nat, rep: nat, cursor: nat)
      requires Valid() && id < MAX_SOCKETS && rep < MAX_SOCKETS
      modifies this, states
      ensures Valid()
      ensures var a := SetState(old(net), rep, old(net).states[rep].(replySrc := id));
              net == SetState(a, id, a.states[id].(cursor := cursor))
    {
      Assign(rep, states[rep].(replySrc := id));
      MoveCursor(id, cursor);
    }

    method Reply(id: nat, src: nat) returns (rv: int)
      requires Valid() && id < MAX_SOCKETS && src in net.held
      modifies this, pool, pool.heap, pool.heap.blocks, pool.slots, queues, states
      ensures Valid() && Routed(old(net), net) && (!old(net.intact) ==> !net.intact)
      ensures old(net.intact) ==>
                var spec := RouteReply(old(net), id, old(net).held[src].body); net == spec.0 && rv == spec.1
    {
      var to := states[id].replySrc;
      if to < 0 || !Live(to) { return ENOTSUP; }
      rv := DeliverCopy(to, src);
      Assign(id, states[id].(replySrc := -1));
    }

    method SurveyTo(id: nat, surveyor: nat, src: nat)
      requires Valid() && id < MAX_SOCKETS && src in net.held
      modifies this, pool, pool.heap, pool.heap.blocks, pool.slots, queues, states
      ensures Valid() && Routed(old(net), net) && (!old(net.intact) ==> !net.intact)
      ensures old(net.intact) ==> net == FanOne(old(net), ToRespondents(surveyor), id, old(net).held[src].body)
    {
      var rv := DeliverCopy(id, src);
      if rv == OK { Assign(id, states[id].(respondentSrc := surveyor)); }
    }

    method SurveyAll(id: nat, src: nat, peers: seq<nat>)
      requires Valid() && src in net.held && AllSockets(peers)
      modifies this, pool, pool.heap, pool.heap.blocks, pool.slots, queues, states
      ensures Valid() && Routed(old(net), net)
      ensures Follows(net, FanOut(old(net), ToRespondents(id), peers, old(net).held[src].body, |peers|))
    {
      ghost var n := net;
      for i := 0 to |peers|
        invariant Valid() && Routed(n, net) && Follows(net, FanOut(n, ToRespondents(id), peers, n.held[src].body, i))
      {
        ghost var m := net;
        SurveyTo(peers[i], id, src);
        FollowsNext(n, ToRespondents(id), peers, n.held[src].body, i, m, net);
      }
    }

    method Survey(id: nat, src: nat, now: nat) returns (rv: int)
      requires Valid() && id < MAX_SOCKETS && src in net.held
      modifies this, pool, pool.heap, pool.heap.blocks, pool.slots, queues, states
      ensures Valid() && Routed(old(net), net) && AllSockets(Peers(old(net), id, RESPONDENT))
      ensures var n := old(net);
              var spec := RouteSurvey(n, id, n.held[src].body, Peers(n, id, RESPONDENT), now);
              Follows(net, spec.0) && rv == spec.1
    {
      ghost var n := net;
      PeersValid(n, id, RESPONDENT);
      var peers := CollectPeers(id, RESPONDENT, n);
      if |peers| == 0 { return ENOTSUP; }
      SurveyAll(id, src, peers);
      Assign(id, states[id].(active := true, deadline := now + SURVEY_TICKS));
      return OK;
    }

    method Respond(id: nat, src: nat, now: nat) returns (rv: int)
      requires Valid() && id < MAX_SOCKETS && src in net.held
      modifies this, pool, pool.heap, pool.heap.blocks, pool.slots, queues, states
      ensures Valid() && Routed(old(net), net) && (!old(net.intact) ==> !net.intact)
      ensures old(net.intact) ==>
                var spec := RouteResponse(old(net), id, old(net).held[src].body, now); net == spec.0 && rv == spec.1
    {
      var to := states[id].respondentSrc;
      if to < 0 || !Live(to) { return ENOTSUP; }
      if !states[to].active || now > states[to].deadline {
        Assign(id, states[id].(respondentSrc := -1));
        return ETIMEDOUT;
      }
      rv := DeliverCopy(to, src);
      Assign(id, states[id].(respondentSrc := -1));
    }

    method Pair(id: nat, src: nat) returns (rv: int)
      requires Valid() && Open(net, id) && net.socks[id].value == PAIR && src in net.held
      modifies this, pool, pool.heap, pool.heap.blocks, pool.slots, queues, states
      ensures Valid() && Routed(old(net), net) && (!old(net.intact) ==> !net.intact)
      ensures old(net.intact) ==>
                var spec := Route(old(net), id, old(net).held[src].body, 0); net == spec.0 && rv == spec.1
    {
      PeersValid(net, id, PAIR);
      var peers := CollectPeers(id, PAIR, net);
      if |peers| == 0 { return ENOTSUP; }
      rv := DeliverCopy(peers[0], src);
    }

    /** The protocols that copy to one socket at most. */
    method RouteOne(id: nat, src: nat, now: nat) returns (rv: int)
      requires Valid() && Open(net, id) && !FansOut(net, id) && src in net.held
      modifies this, pool, pool.heap, pool.heap.blocks, pool.slots, queues, states
      ensures Valid() && Routed(old(net), net) && (!old(net.intact) ==> !net.intact)
      ensures old(net.intact) ==>
                var spec := Route(old(net), id, old(net).held[src].body, now); net == spec.0 && rv == spec.1
    {
      match socks[id].value
      case 6 =>
        PeersValid(net, id, PULL);
        var peers := CollectPeers(id, PULL, net);
        rv := PushTo(id, src, peers);
      case 4 =>
        PeersValid(net, id, REP);
        var peers := CollectPeers(id, REP, net);
        rv := RequestTo(id, src, peers);
      case 5 => rv := Reply(id, src);
      case 10 => rv := Respond(id, src, now);
      case 1 => rv := Pair(id, src);
      case _ => rv := ENOTSUP;
    }

    /** The protocols that copy to every peer. */
    method RouteFan(id: nat, src: nat, now: nat) returns (rv: int)
      requires Valid() && FansOut(net, id) && src in net.held
      modifies this, pool, pool.heap, pool.heap.blocks, pool.slots, queues, states
      ensures Valid() && Routed(old(net), net)
      ensures var spec := Route(old(net), id, old(net).held[src].body, now); Follows(net, spec.0) && rv == spec.1
    {
      rv := OK;
      var proto := socks[id].value;
      if proto == PUB { Publish(id, src); }
      else if proto == BUS { Broadcast(id, src); }
      else { rv := Survey(id, src, now); }
    }

    /** The switch over the socket's protocol. Each copy is made from what the heap holds for the
        message by then, so a fan-out is the specified one only as long as no copy has run over
        its block. */
    method RouteBody(id: nat, src: nat, now: nat) returns (rv: int)
      requires Valid() && Open(net, id) && src in net.held
      modifies this, pool, pool.heap, pool.heap.blocks, pool.slots, queues, states
      ensures Valid() && Routed(old(net), net)
      ensures var spec := Route(old(net), id, old(net).held[src].body, now);
              && Follows(net, spec.0) && (net.intact ==> rv == spec.1)
              && (old(net.intact) && !FansOut(old(net), id) ==> net == spec.0 && rv == spec.1)
    {
      var proto := socks[id].value;
      if proto == PUB || proto == BUS || proto == SURVEYOR {
        rv := RouteFan(id, src, now);
      } else {
        NngIntact.RouteOneIntact(net, id, net.held[src].body, now);
        rv := RouteOne(id, src, now);
      }
    }

    // ------------------------------------------------------------------- the socket calls

    /** The sender passes a message of its own, or null. The call is the net's step if no body has
        run over its block and this call writes none past its block. */
    method Send(id: int, p: nat, now: nat) returns (rv: int)
      requires Valid() && (p == 0 || p in net.held)
      modifies this, pool, pool.heap, pool.heap.blocks, pool.slots, queues, states
      ensures Valid()
      ensures var spec := OnSend(old(net), id, p, now);
              && Follows(net, spec.0) && (net.intact ==> rv == spec.1)
              && (old(net.intact) && !FansOut(old(net), id) ==> net == spec.0 && rv == spec.1)
              && (old(net.intact) && !NngIntact.Overruns(old(net), Call.Send(id, p, now)) ==> net == spec.0 && rv == spec.1)
    {
      NngIntact.CallIntact(net, Call.Send(id, p, now));
      if 0 in pool.live { pool.LiveMessage(0); }
      if p == 0 || !Live(id) { return EINVAL; }
      rv := RouteBody(id, p, now);
      var _ := MsgFree(p);
    }

    method Receive(id: int, now: nat) returns (rv: int, p: nat)
      requires Valid()
      modifies this, queues, states
      ensures Valid() && Legal(old(net), Recv(id, p, now))
      ensures net == OnRecv(old(net), id, p, now).0 && rv == OnRecv(old(net), id, p, now).1
    {
      if 0 in pool.live { pool.LiveMessage(0); }
      if !Live(id) { return EINVAL, 0; }
      if socks[id].value == SURVEYOR && states[id].active && now > states[id].deadline {
        Assign(id, states[id].(active := false));
      }
      ContentsAt(queues[..], pool.live, id);
      QueuesOkAt(queues[..], id);
      if queues[id].count == 0 { return ETIMEDOUT, 0; }
      p := TakeOldest(id);
      return OK, p;
    }

    method TakeOldest(id: nat) returns (p: nat)
      requires Valid() && id < MAX_SOCKETS && net.queues[id] != []
      modifies this, queues
      ensures Valid() && p !in old(net).held
      ensures net == old(net).(queues := old(net).queues[id := old(net).queues[id][1..]],
                               held := old(net).held[p := Message(old(net).queues[id][0], true)])
    {
      ghost var qs := queues[..];
      ContentsAt(qs, pool.live, id);
      QueuesOkAt(qs, id);
      ReceiveView(qs, pool.live, id);
      DequeueTakes(qs[id]);
      QueuesOkUpdate(qs, id, Dequeued(qs[id]));
      var q := queues[id];
      p := q.cells[q.head];
      queues[id] := Queue(q.cells[q.head := 0], (q.head + 1) % 16, q.tail, q.count - 1);
      assert queues[..] == qs[id := Dequeued(qs[id])];
      net := net.(queues := net.queues[id := net.queues[id][1..]],
                  held := net.held[p := Message(net.queues[id][0], true)]);
    }

    method Create(proto: int) returns (rv: int, id: int)
      requires Valid()
      modifies this, socks, states
      ensures Valid() && net == OnCreate(old(net), proto).0 && rv == OnCreate(old(net), proto).1
      ensures id == if rv == OK then FreeSocket(old(net), 0) else -1
    {
      id := FirstClosed();
      if id < 0 { return ENOMEM, -1; }
      socks[id] := Some(proto);
      var s := states[id];
      states[id] := s.(cursor := 0, replySrc := -1, respondentSrc := -1, active := false, topics := []);
      net := OnCreate(net, proto).0;
      return OK, id;
    }

    method FirstClosed() returns (id: int)
      requires Valid()
      ensures id == if FreeSocket(net, 0) == MAX_SOCKETS then -1 else FreeSocket(net, 0)
    {
      for i := 0 to MAX_SOCKETS
        invariant FreeSocket(net, 0) >= i
      {
        if socks[i].None? { return i; }
      }
      return -1;
    }

    method Connect(src: int, dst: int) returns (rv: int)
      requires Valid()
      modifies this, pipes
      ensures Valid() && net == OnConnect(old(net), src, dst).0 && rv == OnConnect(old(net), src, dst).1
    {
      if !Live(src) || !Live(dst) { return EINVAL; }
      for i := 0 to MAX_PIPES
        invariant Valid() && net == old(net) && FreePipe(net, 0) >= i
      {
        if pipes[i].None? {
          pipes[i] := Some(Pipe(src, dst));
          net := OnConnect(net, src, dst).0;
          return OK;
        }
      }
      return ENOMEM;
    }

    method Subscribe(id: int, topic: Body) returns (rv: int)
      requires Valid()
      modifies this, states
      ensures Valid() && net == OnSubscribe(old(net), id, topic).0 && rv == OnSubscribe(old(net), id, topic).1
    {
      if !Live(id) || socks[id].value != SUB { return EINVAL; }
      if |topic| > MAX_TOPIC { return EINVAL; }
      if |states[id].topics| >= MAX_SUBS { return ENOMEM; }
      Assign(id, states[id].(topics := states[id].topics + [topic]));
      return OK;
    }

    method Unsubscribe(id: int, topic: Body) returns (rv: int)
      requires Valid() && |topic| <= MAX_TOPIC
      modifies this, states
      ensures Valid() && net == OnUnsubscribe(old(net), id, topic).0 && rv == OnUnsubscribe(old(net), id, topic).1
    {
      if !Live(id) || socks[id].value != SUB { return EINVAL; }
      var topics := states[id].topics;
      var i := FindTopic(topics, topic);
      if i == |topics| { return ENOENT; }
      var last := |topics| - 1;
      Assign(id, states[id].(topics := topics[i := topics[last]][..last]));
      return OK;
    }

    // -------------------------------------------------------------------- closing

    /** Frees what a queue holds and resets it. */
    method DrainQueue(id: nat)
      requires pool.Valid() && Apart() && id < queues.Length && QueueOk(queues[id]) && Owned(queues[..], pool.live)
      modifies pool, pool.heap, pool.heap.blocks, pool.slots, queues
      ensures pool.Valid() && pool.intact == old(pool.intact) && queues[..] == old(queues[..])[id := Empty()]
      ensures pool.live == old(pool.live) - Names(old(queues[id]).cells)
      ensures |pool.live| == |old(pool.live)| - old(queues[id]).count
      ensures pool.small == old(pool.small) + 2 * old(queues[id]).count && pool.medium == old(pool.medium)
    {
      ghost var qs := queues[..];
      var cells := queues[id].cells;
      CountIsNonNull(qs[id]);
      forall i | 0 <= i < |cells| && cells[i] != 0
        ensures cells[i] in pool.live && pool.live[cells[i]].small && cells[i] !in cells[..i]
      {
        NextToFree(qs, pool.live, id, i);
      }
      FreeAll(pool, cells);
      queues[id] := Empty();
    }

    method CutAll(id: nat)
      requires pipes.Length == MAX_PIPES
      modifies pipes
      ensures pipes[..] == CutPipes(old(pipes[..]), id)
    {
      for i := 0 to MAX_PIPES
        invariant forall k :: 0 <= k < MAX_PIPES ==>
                    pipes[k] == if k < i && Touches(old(pipes[k]), id) then None else old(pipes[k])
      {
        if pipes[i].Some? && (pipes[i].value.src == id || pipes[i].value.dst == id) { pipes[i] := None; }
      }
    }

    /** Empties a socket's queue, cuts its pipes and marks it free. */
    method TearDown(id: nat)
      requires pool.Valid() && Apart() && id < queues.Length && QueuesOk(queues[..]) && Owned(queues[..], pool.live)
      requires pipes.Length == MAX_PIPES && id < socks.Length
      modifies pool, pool.heap, pool.heap.blocks, pool.slots, queues, socks, pipes
      ensures pool.Valid() && QueuesOk(queues[..]) && Owned(queues[..], pool.live)
      ensures Contents(queues[..], pool.live) == old(Contents(queues[..], pool.live))[id := []]
      ensures Held(queues[..], pool.live) == old(Held(queues[..], pool.live))
      ensures var k := |old(Contents(queues[..], pool.live))[id]|;
              |pool.live| == |old(pool.live)| - k && pool.small == old(pool.small) + 2 * k
      ensures pool.medium == old(pool.medium) && pool.intact == old(pool.intact)
      ensures pipes[..] == CutPipes(old(pipes[..]), id) && socks[..] == old(socks[..])[id := None]
    {
      ghost var qs, live := queues[..], pool.live;
      QueuesOkAt(qs, id);
      ContentsAt(qs, live, id);
      CloseView(qs, live, id);
      QueuesOkUpdate(qs, id, Empty());
      DrainQueue(id);
      CutAll(id);
      socks[id] := None;
    }

    method Close(id: int) returns (rv: int)
      requires Valid()
      modifies this, pool, pool.heap, pool.heap.blocks, pool.slots, queues, socks, pipes
      ensures Valid() && net == OnClose(old(net), id).0 && rv == OnClose(old(net), id).1
    {
      if !Live(id) { return EINVAL; }
      TearDown(id);
      net := CloseSocket(net, id);
      return OK;
    }
  }
}
