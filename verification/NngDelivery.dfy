/** Who gets a message, in which order, and how often. */
module NngDelivery {
  import opened NngSpec
  import opened NngLaws
  import opened NngIntact

  // ------------------------------------------------------------------- fan-out

  function Copies(body: Body, d: nat): seq<Body> {
    seq(d, _ => body)
  }

  /** How many of the first k peer entries name q and are meant to get the body. */
  function Wanted(n: Net, fan: Fan, peers: seq<nat>, body: Body, q: nat, k: nat): nat
    requires k <= |peers| && q < |n.states|
  {
    if k == 0 then 0 else
      Wanted(n, fan, peers, body, q, k - 1) +
      (if peers[k - 1] == q && (fan.ToSubscribers? ==> Accepts(n, q, body)) then 1 else 0)
  }

  /** A fan-out never changes a subscription list. */
  lemma {:induction false} FanOutKeepsTopics(n: Net, fan: Fan, peers: seq<nat>, body: Body, k: nat, q: nat)
    requires k <= |peers| && AllSockets(peers) && q < MAX_SOCKETS
    requires |n.queues| == MAX_SOCKETS && |n.states| == MAX_SOCKETS
    ensures FanOut(n, fan, peers, body, k).states[q].topics == n.states[q].topics
  {
    if k > 0 { FanOutKeepsTopics(n, fan, peers, body, k - 1, q); }
  }

  lemma CopiesSnoc(queue: seq<Body>, body: Body, d: nat)
    ensures queue + Copies(body, d) + [body] == queue + Copies(body, d + 1)
  {}

  /** Socket q gets one copy for each entry that names it and wants the body. A copy is missing
      only if in the end the queue is full or the pool or the heap is exhausted. */
  lemma {:induction false} FanOutAppends(n: Net, fan: Fan, peers: seq<nat>, body: Body, k: nat, q: nat)
      returns (d: nat)
    requires k <= |peers| && AllSockets(peers) && q < MAX_SOCKETS
    requires |n.queues| == MAX_SOCKETS && |n.states| == MAX_SOCKETS
    ensures d <= Wanted(n, fan, peers, body, q, k)
    ensures FanOut(n, fan, peers, body, k).queues[q] == n.queues[q] + Copies(body, d)
    ensures d < Wanted(n, fan, peers, body, q, k) ==> !HasRoom(FanOut(n, fan, peers, body, k), q, body)
  {
    if k == 0 {
      d := 0;
      assert n.queues[q] + Copies(body, 0) == n.queues[q];
    } else {
      var before := FanOut(n, fan, peers, body, k - 1);
      d := FanOutAppends(n, fan, peers, body, k - 1, q);
      FanOutKeepsTopics(n, fan, peers, body, k - 1, q);
      if peers[k - 1] == q && (fan.ToSubscribers? ==> Accepts(n, q, body)) && HasRoom(before, q, body) {
        CopiesSnoc(n.queues[q], body, d);
        d := d + 1;
      }
    }
  }

  /** A fan-out of a body that fits a small block: socket q gets its copies, and the heap holds
      them and everything it held before. */
  lemma FanOutDelivers(n: Net, fan: Fan, peers: seq<nat>, body: Body, k: nat, q: nat) returns (d: nat)
    requires k <= |peers| && AllSockets(peers) && q < MAX_SOCKETS
    requires |n.queues| == MAX_SOCKETS && |n.states| == MAX_SOCKETS
    requires n.intact && |body| <= SMALL_BLOCK
    ensures var m := FanOut(n, fan, peers, body, k);
            && m.intact && m.queues[q] == n.queues[q] + Copies(body, d)
            && d <= Wanted(n, fan, peers, body, q, k)
            && (d < Wanted(n, fan, peers, body, q, k) ==> !HasRoom(m, q, body))
  {
    d := FanOutAppends(n, fan, peers, body, k, q);
    FanOutIntact(n, fan, peers, body, k);
  }

  /** A publish of a body that fits a small block reaches exactly the connected subscribers with
      a matching topic, and the heap holds their copies. */
  lemma PublishDelivers(n: Net, id: nat, body: Body, now: nat, q: nat) returns (d: nat)
    requires Shape(n) && Speaks(n, id, PUB) && q < MAX_SOCKETS
    requires n.intact && |body| <= SMALL_BLOCK
    ensures var m, peers := Route(n, id, body, now).0, Peers(n, id, SUB);
            && m.intact && m.queues[q] == n.queues[q] + Copies(body, d)
            && d <= Wanted(n, ToSubscribers, peers, body, q, |peers|)
            && (d < Wanted(n, ToSubscribers, peers, body, q, |peers|) ==> !HasRoom(m, q, body))
    ensures q !in Peers(n, id, SUB) || !Accepts(n, q, body) ==> d == 0
  {
    PeersValid(n, id, SUB);
    var peers := Peers(n, id, SUB);
    d := FanOutDelivers(n, ToSubscribers, peers, body, |peers|, q);
    WantedNothing(n, ToSubscribers, peers, body, q, |peers|);
  }

  lemma {:induction false} WantedNothing(n: Net, fan: Fan, peers: seq<nat>, body: Body, q: nat, k: nat)
    requires k <= |peers| && q < |n.states|
    ensures q !in peers || (fan.ToSubscribers? && !Accepts(n, q, body)) ==> Wanted(n, fan, peers, body, q, k) == 0
  {
    if k > 0 { WantedNothing(n, fan, peers, body, q, k - 1); }
  }

  // ----------------------------------------------------------------- first in, first out

  /** A routed body lands as copies of itself at the end of queues, and nowhere else. */
  lemma RouteAppends(n: Net, id: nat, body: Body, now: nat, q: nat) returns (d: nat)
    requires Shape(n) && Open(n, id) && q < MAX_SOCKETS
    ensures Route(n, id, body, now).0.queues[q] == n.queues[q] + Copies(body, d)
  {
    var proto, s := n.socks[id].value, n.states[id];
    if proto == PUB || proto == BUS || proto == SURVEYOR {
      var (filter, fan) := if proto == PUB then (SUB, ToSubscribers)
                           else if proto == BUS then (BUS, ToAll) else (RESPONDENT, ToRespondents(id));
      PeersValid(n, id, filter);
      d := FanOutAppends(n, fan, Peers(n, id, filter), body, |Peers(n, id, filter)|, q);
      if proto == SURVEYOR && Peers(n, id, filter) == [] { d := 0; }
    } else {
      d := SingleAppends(n, id, body, now, q);
    }
  }

  lemma SingleAppends(n: Net, id: nat, body: Body, now: nat, q: nat) returns (d: nat)
    requires Shape(n) && Open(n, id) && q < MAX_SOCKETS
    requires n.socks[id].value !in {PUB, BUS, SURVEYOR}
    ensures Route(n, id, body, now).0.queues[q] == n.queues[q] + Copies(body, d)
  {
    var proto := n.socks[id].value;
    if proto == PUSH { PeersValid(n, id, PULL); }
    else if proto == REQ { PeersValid(n, id, REP); }
    else if proto == PAIR { PeersValid(n, id, PAIR); }
    var was, now' := n.queues[q], Route(n, id, body, now).0.queues[q];
    assert now' == was || now' == was + [body];
    if now' == was { d := 0; assert was + Copies(body, 0) == was; }
    else { d := 1; assert Copies(body, 1) == [body]; }
  }

  /** The body a successful receive from q hands out at this step. */
  function Taken(n: Net, call: Call, q: nat): seq<Body>
    requires q < |n.queues|
  {
    if call.Recv? && call.id == q && Open(n, q) && n.queues[q] != [] then [n.queues[q][0]] else []
  }

  /** What a step appends to q. */
  function Added(n: Net, m: Net, q: nat): seq<Body>
    requires q < |n.queues| && q < |m.queues|
  {
    if |m.queues[q]| > |n.queues[q]| then m.queues[q][|n.queues[q]|..] else []
  }

  /** One step of a queue: what is taken comes from the front, what is added goes to the end
      and is the body sent, and the caller gets what is taken. */
  lemma QueueStep(n: Net, call: Call, q: nat)
    requires Shape(n) && q < MAX_SOCKETS && !(call.Close? && call.id == q)
    ensures var m := Apply(n, call).0; Taken(n, call, q) + m.queues[q] == n.queues[q] + Added(n, m, q)
    ensures Taken(n, call, q) != [] ==> Apply(n, call).1 == OK && Apply(n, call).0.held[call.handle].body == Taken(n, call, q)[0]
    ensures Added(n, Apply(n, call).0, q) != [] ==>
              call.Send? && call.handle in n.held &&
              forall i :: 0 <= i < |Added(n, Apply(n, call).0, q)| ==>
                Added(n, Apply(n, call).0, q)[i] == n.held[call.handle].body
  {
    if call.Send? && Open(n, call.id) && call.handle in n.held {
      var d := RouteAppends(n, call.id, n.held[call.handle].body, call.now, q);
    }
  }

  /** What a run takes from q from step a up to step b. */
  ghost function TakenIn(nets: seq<Net>, calls: seq<Call>, q: nat, a: nat, b: nat): seq<Body>
    requires a <= b <= |calls| <= |nets| && AllShaped(nets) && q < MAX_SOCKETS
    decreases b
  {
    if a == b then [] else TakenIn(nets, calls, q, a, b - 1) + Taken(nets[b - 1], calls[b - 1], q)
  }

  /** What a run adds to q from step a up to step b. */
  ghost function AddedIn(nets: seq<Net>, q: nat, a: nat, b: nat): seq<Body>
    requires a <= b < |nets| && AllShaped(nets) && q < MAX_SOCKETS
    decreases b
  {
    if a == b then [] else AddedIn(nets, q, a, b - 1) + Added(nets[b - 1], nets[b], q)
  }

  lemma RunStep(nets: seq<Net>, calls: seq<Call>, i: nat, q: nat)
    requires IsRun(nets, calls) && i < |calls| && q < MAX_SOCKETS
    requires !(calls[i].Close? && calls[i].id == q)
    ensures Taken(nets[i], calls[i], q) + nets[i + 1].queues[q] == nets[i].queues[q] + Added(nets[i], nets[i + 1], q)
  {
    assert StepAt(nets, calls, i);
    QueueStep(nets[i], calls[i], q);
  }

  lemma OneMore(nets: seq<Net>, calls: seq<Call>, q: nat, a: nat, b: nat)
    requires a < b <= |calls| < |nets| && AllShaped(nets) && q < MAX_SOCKETS
    ensures TakenIn(nets, calls, q, a, b) == TakenIn(nets, calls, q, a, b - 1) + Taken(nets[b - 1], calls[b - 1], q)
    ensures AddedIn(nets, q, a, b) == AddedIn(nets, q, a, b - 1) + Added(nets[b - 1], nets[b], q)
  {}

  lemma {:induction false} QueueRun(nets: seq<Net>, calls: seq<Call>, q: nat, a: nat, b: nat)
    requires IsRun(nets, calls) && a <= b <= |calls| && q < MAX_SOCKETS
    requires forall i :: a <= i < b ==> !(calls[i].Close? && calls[i].id == q)
    ensures TakenIn(nets, calls, q, a, b) + nets[b].queues[q] == nets[a].queues[q] + AddedIn(nets, q, a, b)
    decreases b
  {
    if a == b {
      assert [] + nets[b].queues[q] == nets[a].queues[q] + [];
    } else {
      QueueRun(nets, calls, q, a, b - 1);
      RunStep(nets, calls, b - 1, q);
      OneMore(nets, calls, q, a, b);
      Chain(TakenIn(nets, calls, q, a, b - 1), Taken(nets[b - 1], calls[b - 1], q), nets[b].queues[q],
            nets[b - 1].queues[q], nets[a].queues[q], AddedIn(nets, q, a, b - 1), Added(nets[b - 1], nets[b], q));
    }
  }

  /** While a socket is not closed and no call writes past a block, what was received from it
      followed by what it still queues is what it queued at first followed by everything
      delivered to it, in order, and that is what the heap holds. */
  lemma FirstInFirstOut(nets: seq<Net>, calls: seq<Call>, q: nat, a: nat, b: nat)
    requires IsRun(nets, calls) && a <= b <= |calls| && q < MAX_SOCKETS
    requires forall i :: a <= i < b ==> !(calls[i].Close? && calls[i].id == q)
    requires nets[a].intact && AllFit(nets, calls, a, b)
    ensures TakenIn(nets, calls, q, a, b) + nets[b].queues[q] == nets[a].queues[q] + AddedIn(nets, q, a, b)
    ensures nets[b].intact
  {
    QueueRun(nets, calls, q, a, b);
    IntactWhileFitting(nets, calls, a, b);
  }

  lemma Chain<T>(taken: seq<T>, t: seq<T>, now: seq<T>, mid: seq<T>, first: seq<T>, added: seq<T>, x: seq<T>)
    requires taken + mid == first + added && t + now == mid + x
    ensures (taken + t) + now == first + (added + x)
  {
    assert (taken + t) + now == taken + (t + now);
    assert taken + (mid + x) == (taken + mid) + x;
    assert (first + added) + x == first + (added + x);
  }
}
