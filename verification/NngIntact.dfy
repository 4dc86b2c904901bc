/** When a call writes a body past the end of its block. A copy is made in a 64-byte block
    whatever the length of the body, so a longer body runs over the end of its block. */
module NngIntact {
  import opened NngSpec
  import opened NngLaws

  // ------------------------------------------------------------------ one call

  predicate Wants(n: Net, fan: Fan, q: nat, body: Body)
    requires q < |n.states|
  {
    fan.ToSubscribers? ==> Accepts(n, q, body)
  }

  /** Some entry among the first k of a peer list is to get the body. */
  predicate AnyWanted(n: Net, fan: Fan, peers: seq<nat>, body: Body, k: nat)
    requires k <= |peers| && AllSockets(peers) && |n.states| == MAX_SOCKETS
  {
    exists i :: 0 <= i < k && Wants(n, fan, peers[i], body)
  }

  /** A send of this body from this socket is addressed to somebody. */
  ghost predicate Addressed(n: Net, id: nat, body: Body, now: nat)
    requires Shape(n) && Open(n, id)
  {
    var proto := n.socks[id].value;
    if proto == PUB then
      PeersValid(n, id, SUB);
      AnyWanted(n, ToSubscribers, Peers(n, id, SUB), body, |Peers(n, id, SUB)|)
    else if proto == BUS then Peers(n, id, BUS) != []
    else if proto == PUSH then Peers(n, id, PULL) != []
    else if proto == REQ then Peers(n, id, REP) != []
    else if proto == REP then Open(n, n.states[id].replySrc)
    else if proto == SURVEYOR then Peers(n, id, RESPONDENT) != []
    else if proto == RESPONDENT then
      var to := n.states[id].respondentSrc;
      Open(n, to) && n.states[to].active && now <= n.states[to].deadline
    else if proto == PAIR then Peers(n, id, PAIR) != []
    else false
  }

  /** The call writes a body past the end of its block. */
  ghost predicate Overruns(n: Net, call: Call)
    requires Shape(n)
  {
    match call
    case Append(p, data) =>
      p in n.held && Capacity(n.held[p].small) < |n.held[p].body| + |data| <= BODY_SIZE
    case Send(id, p, now) =>
      && p in n.held && Open(n, id)
      && |n.held[p].body| > SMALL_BLOCK && CanCopy(n, n.held[p].body) && Addressed(n, id, n.held[p].body, now)
    case _ => false
  }

  /** What a caller can do to keep clear of it: send nothing longer than a small block, and
      append nothing that a message's block does not hold. */
  predicate Fits(n: Net, call: Call) {
    match call
    case Append(p, data) => p in n.held ==> |n.held[p].body| + |data| <= Capacity(n.held[p].small)
    case Send(_, p, _) => p in n.held ==> |n.held[p].body| <= SMALL_BLOCK
    case _ => true
  }

  lemma FitsDoesNotOverrun(n: Net, call: Call)
    requires Shape(n) && Fits(n, call)
    ensures !Overruns(n, call)
  {}

  lemma DeliverIntact(n: Net, id: nat, body: Body)
    requires id < |n.queues|
    ensures Deliver(n, id, body).0.intact == (n.intact && (|body| <= SMALL_BLOCK || !CanCopy(n, body)))
    ensures !CanCopy(n, body) ==> Deliver(n, id, body).0 == n
  {}

  /** One entry of a fan-out: nobody's topics change, and the flag falls as at a delivery. */
  lemma FanOneIntact(n: Net, fan: Fan, q: nat, body: Body)
    requires |n.queues| == MAX_SOCKETS && |n.states| == MAX_SOCKETS && q < MAX_SOCKETS
    ensures var m := FanOne(n, fan, q, body);
            && m.intact == (n.intact && (|body| <= SMALL_BLOCK || !CanCopy(n, body) || !Wants(n, fan, q, body)))
            && (!CanCopy(n, body) || !Wants(n, fan, q, body) ==> m == n)
            && forall i :: 0 <= i < MAX_SOCKETS ==> m.states[i].topics == n.states[i].topics
  {
    DeliverIntact(n, q, body);
  }

  lemma AnyWantedNext(n: Net, fan: Fan, peers: seq<nat>, body: Body, k: nat)
    requires k < |peers| && AllSockets(peers) && |n.states| == MAX_SOCKETS
    ensures AnyWanted(n, fan, peers, body, k + 1)
            <==> AnyWanted(n, fan, peers, body, k) || Wants(n, fan, peers[k], body)
  {}

  /** A fan-out writes past a block exactly when a copy of a long body can be made and somebody
      wants one. */
  lemma {:induction false} FanOutIntact(n: Net, fan: Fan, peers: seq<nat>, body: Body, k: nat)
    requires k <= |peers| && AllSockets(peers) && |n.queues| == MAX_SOCKETS && |n.states| == MAX_SOCKETS
    ensures var m := FanOut(n, fan, peers, body, k);
            && m.intact == (n.intact && (|body| <= SMALL_BLOCK || !CanCopy(n, body) || !AnyWanted(n, fan, peers, body, k)))
            && (!CanCopy(n, body) || !AnyWanted(n, fan, peers, body, k) ==> m == n)
            && forall q :: 0 <= q < MAX_SOCKETS ==> m.states[q].topics == n.states[q].topics
  {
    if k > 0 {
      FanOutIntact(n, fan, peers, body, k - 1);
      var m, q := FanOut(n, fan, peers, body, k - 1), peers[k - 1];
      assert Wants(m, fan, q, body) == Wants(n, fan, q, body) by {
        assert m.states[q].topics == n.states[q].topics;
      }
      AnyWantedNext(n, fan, peers, body, k - 1);
      FanOneIntact(m, fan, q, body);
    }
  }

  lemma FanIntact(n: Net, fan: Fan, id: nat, proto: int, body: Body)
    requires Shape(n)
    ensures AllSockets(Peers(n, id, proto))
    ensures var peers := Peers(n, id, proto);
            FanOut(n, fan, peers, body, |peers|).intact
            == (n.intact && (|body| <= SMALL_BLOCK || !CanCopy(n, body) || !AnyWanted(n, fan, peers, body, |peers|)))
  {
    PeersValid(n, id, proto);
    FanOutIntact(n, fan, Peers(n, id, proto), body, |Peers(n, id, proto)|);
  }

  lemma EverybodyWanted(n: Net, fan: Fan, id: nat, proto: int, body: Body)
    requires Shape(n) && !fan.ToSubscribers?
    ensures AllSockets(Peers(n, id, proto))
    ensures var peers := Peers(n, id, proto); AnyWanted(n, fan, peers, body, |peers|) <==> peers != []
  {
    PeersValid(n, id, proto);
    var peers := Peers(n, id, proto);
    if peers != [] { assert Wants(n, fan, peers[0], body); }
  }

  lemma RouteFanIntact(n: Net, id: nat, body: Body, now: nat)
    requires Shape(n) && Open(n, id) && n.socks[id].value in {PUB, BUS, SURVEYOR}
    ensures Route(n, id, body, now).0.intact
            == (n.intact && (|body| <= SMALL_BLOCK || !CanCopy(n, body) || !Addressed(n, id, body, now)))
  {
    var proto := n.socks[id].value;
    if proto == PUB {
      FanIntact(n, ToSubscribers, id, SUB, body);
    } else if proto == BUS {
      FanIntact(n, ToAll, id, BUS, body);
      EverybodyWanted(n, ToAll, id, BUS, body);
    } else {
      FanIntact(n, ToRespondents(id), id, RESPONDENT, body);
      EverybodyWanted(n, ToRespondents(id), id, RESPONDENT, body);
    }
  }

  lemma RouteOneIntact(n: Net, id: nat, body: Body, now: nat)
    requires Shape(n) && Open(n, id) && n.socks[id].value !in {PUB, BUS, SURVEYOR}
    ensures Route(n, id, body, now).0.intact
            == (n.intact && (|body| <= SMALL_BLOCK || !CanCopy(n, body) || !Addressed(n, id, body, now)))
  {
    var proto := n.socks[id].value;
    if proto == PUSH {
      PeersValid(n, id, PULL);
    } else if proto == REQ {
      PeersValid(n, id, REP);
    } else if proto == PAIR {
      PeersValid(n, id, PAIR);
    }
  }

  /** The flag falls exactly at a call that writes a body past its block. As long as it stands,
      the heap holds what was sent; once it has fallen, nothing is claimed of the bytes. */
  lemma CallIntact(n: Net, call: Call)
    requires Shape(n)
    ensures Apply(n, call).0.intact == (n.intact && !Overruns(n, call))
  {
    if call.Send? && call.handle in n.held && Open(n, call.id) {
      var body := n.held[call.handle].body;
      if n.socks[call.id].value in {PUB, BUS, SURVEYOR} {
        RouteFanIntact(n, call.id, body, call.now);
      } else {
        RouteOneIntact(n, call.id, body, call.now);
      }
    }
  }

  // ----------------------------------------------------------------- whole runs

  /** In any run the flag still stands exactly if no call since has written past a block. */
  lemma {:induction false} IntactExactly(nets: seq<Net>, calls: seq<Call>, a: nat, b: nat)
    requires IsRun(nets, calls) && a <= b <= |calls| && nets[a].intact
    ensures nets[b].intact <==> forall i :: a <= i < b ==> !Overruns(nets[i], calls[i])
  {
    if a < b {
      IntactExactly(nets, calls, a, b - 1);
      assert StepAt(nets, calls, b - 1);
      CallIntact(nets[b - 1], calls[b - 1]);
    }
  }

  /** The calls from a up to b all fit their blocks. */
  predicate AllFit(nets: seq<Net>, calls: seq<Call>, a: nat, b: nat)
    requires a <= b <= |calls| <= |nets|
  {
    forall i :: a <= i < b ==> Fits(nets[i], calls[i])
  }

  lemma IntactWhileFitting(nets: seq<Net>, calls: seq<Call>, a: nat, b: nat)
    requires IsRun(nets, calls) && a <= b <= |calls| && nets[a].intact && AllFit(nets, calls, a, b)
    ensures nets[b].intact
  {
    IntactExactly(nets, calls, a, b);
    forall i | a <= i < b ensures !Overruns(nets[i], calls[i]) { FitsDoesNotOverrun(nets[i], calls[i]); }
  }
}
