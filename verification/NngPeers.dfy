/** Whom a send can reach: the sockets at the far ends of the sender's own pipes. */
module NngPeers {
  import opened NngSpec
  import opened NngLaws
  import opened NngIntact
  import opened NngDelivery

  // --------------------------------------------------------------------- the pipes

  /** The pipe leads from id to q: it goes there or, between bus sockets, comes from there. */
  predicate LeadsTo(pipe: Option<Pipe>, id: nat, q: nat, proto: int) {
    pipe == Some(Pipe(id, q)) || (proto == 8 && pipe == Some(Pipe(q, id)))
  }

  /** How many of the first k pipes lead from id to q. */
  function PipesTo(pipes: seq<Option<Pipe>>, id: nat, q: nat, proto: int, k: nat): nat
    requires k <= |pipes|
  {
    if k == 0 then 0
    else PipesTo(pipes, id, q, proto, k - 1) + if LeadsTo(pipes[k - 1], id, q, proto) then 1 else 0
  }

  /** Some pipe leads from id to q, and q is open and speaks the protocol. */
  ghost predicate Linked(n: Net, id: nat, q: nat, proto: int) {
    && 0 <= q < |n.socks| && n.socks[q] == Some(proto)
    && exists i :: 0 <= i < |n.pipes| && LeadsTo(n.pipes[i], id, q, proto)
  }

  function Count(s: seq<nat>, q: nat, k: nat): nat
    requires k <= |s|
  {
    if k == 0 then 0 else Count(s, q, k - 1) + if s[k - 1] == q then 1 else 0
  }

  lemma {:induction false} CountPrefix(s: seq<nat>, t: seq<nat>, q: nat, k: nat)
    requires k <= |s|
    ensures Count(s + t, q, k) == Count(s, q, k)
  {
    if k > 0 { CountPrefix(s, t, q, k - 1); }
  }

  lemma CountPeer(s: seq<nat>, t: seq<nat>, q: nat)
    requires |t| <= 1
    ensures Count(s + t, q, |s + t|) == Count(s, q, |s|) + if t == [q] then 1 else 0
  {
    CountPrefix(s, t, q, |s|);
    if t == [] { assert s + t == s; }
  }

  /** One pipe yields at most one peer: the one it leads to, if that speaks the protocol. */
  lemma PeerOfIs(n: Net, pipe: Option<Pipe>, id: nat, proto: int, q: nat)
    ensures |PeerOf(n, pipe, id, proto)| <= 1
    ensures PeerOf(n, pipe, id, proto) == [q] <==>
              q < |n.socks| && n.socks[q] == Some(proto) && LeadsTo(pipe, id, q, proto)
  {}

  // --------------------------------------------------------------------- the peers

  /** A socket occurs among the peers as often as pipes lead to it. */
  lemma {:induction false} PeersCount(n: Net, id: nat, proto: int, q: nat, k: nat)
    requires k <= |n.pipes|
    ensures var all := PeersUpTo(n, id, proto, k);
            Count(all, q, |all|)
            == if q < |n.socks| && n.socks[q] == Some(proto) then PipesTo(n.pipes, id, q, proto, k) else 0
  {
    if k > 0 {
      PeersCount(n, id, proto, q, k - 1);
      PeerOfIs(n, n.pipes[k - 1], id, proto, q);
      CountPeer(PeersUpTo(n, id, proto, k - 1), PeerOf(n, n.pipes[k - 1], id, proto), q);
    }
  }

  /** Peers come in the order of the pipes: entry j comes from a pipe that leads to it, and the
      pipes before that one yield the j entries before it. */
  lemma {:induction false} PeersInOrder(n: Net, id: nat, proto: int, k: nat, j: nat) returns (i: nat)
    requires k <= |n.pipes| && j < |PeersUpTo(n, id, proto, k)|
    ensures i < k && LeadsTo(n.pipes[i], id, PeersUpTo(n, id, proto, k)[j], proto)
    ensures PeersUpTo(n, id, proto, i) == PeersUpTo(n, id, proto, k)[..j]
  {
    var before, peer := PeersUpTo(n, id, proto, k - 1), PeerOf(n, n.pipes[k - 1], id, proto);
    if j < |before| {
      i := PeersInOrder(n, id, proto, k - 1, j);
      assert (before + peer)[..j] == before[..j];
    } else {
      i := k - 1;
      PeerOfIs(n, n.pipes[i], id, proto, (before + peer)[j]);
      assert (before + peer)[..j] == before;
      assert peer == [peer[0]];
    }
  }

  /** The collected peers are the first sixteen. */
  lemma PeersAreFirst(n: Net, id: nat, proto: int)
    ensures var all, peers := PeersUpTo(n, id, proto, |n.pipes|), Peers(n, id, proto);
            |peers| == (if |all| <= 16 then |all| else 16) && peers == all[..|peers|]
  {}

  lemma {:induction false} CountPositive(s: seq<nat>, q: nat, k: nat)
    requires k <= |s|
    ensures Count(s, q, k) > 0 <==> q in s[..k]
  {
    if k > 0 {
      CountPositive(s, q, k - 1);
      assert s[..k] == s[..k - 1] + [s[k - 1]];
    }
  }

  lemma {:induction false} PipesPositive(pipes: seq<Option<Pipe>>, id: nat, q: nat, proto: int, k: nat)
    requires k <= |pipes|
    ensures PipesTo(pipes, id, q, proto, k) > 0 <==> exists i :: 0 <= i < k && LeadsTo(pipes[i], id, q, proto)
  {
    if k > 0 { PipesPositive(pipes, id, q, proto, k - 1); }
  }

  /** A socket is a peer exactly if a pipe leads to it, unless sixteen others come before it. */
  lemma PeerIff(n: Net, id: nat, proto: int, q: nat)
    ensures q in Peers(n, id, proto) ==> Linked(n, id, q, proto)
    ensures Linked(n, id, q, proto) && |PeersUpTo(n, id, proto, |n.pipes|)| <= 16 ==> q in Peers(n, id, proto)
    ensures Linked(n, id, q, proto) ==> Peers(n, id, proto) != []
  {
    var all := PeersUpTo(n, id, proto, |n.pipes|);
    PeersCount(n, id, proto, q, |n.pipes|);
    CountPositive(all, q, |all|);
    PipesPositive(n.pipes, id, q, proto, |n.pipes|);
    assert all[..|all|] == all;
  }

  // ---------------------------------------------------------------- who gets a send

  /** Room for one more copy at socket q. */
  lemma RoomIff(n: Net, q: nat, body: Body)
    requires q < |n.queues|
    ensures HasRoom(n, q, body) <==> n.used < 64 && n.small >= 2 && |body| <= 256 && |n.queues[q]| < 16
  {}

  /** A subscriber's topics admit a body if one of them is a prefix of it. */
  predicate Admits(topics: seq<Body>, body: Body) {
    exists i :: 0 <= i < |topics| && |topics[i]| <= |body| && topics[i] == body[..|topics[i]|]
  }

  lemma AdmitsIs(n: Net, q: nat, body: Body)
    requires q < |n.states|
    ensures Accepts(n, q, body) <==> Admits(n.states[q].topics, body)
  {
    forall i | 0 <= i < |n.states[q].topics|
      ensures var t := n.states[q].topics[i]; IsPrefix(t, body) <==> |t| <= |body| && t == body[..|t|]
    {}
  }

  lemma {:induction false} WantedIs(n: Net, fan: Fan, peers: seq<nat>, body: Body, q: nat, k: nat)
    requires k <= |peers| && q < |n.states|
    ensures Wanted(n, fan, peers, body, q, k)
            == if fan.ToSubscribers? && !Accepts(n, q, body) then 0 else Count(peers, q, k)
  {
    if k > 0 { WantedIs(n, fan, peers, body, q, k - 1); }
  }

  lemma {:induction false} CountFirst(s: seq<nat>, q: nat, k: nat)
    requires k <= |s|
    ensures Count(s[..k], q, k) == Count(s, q, k)
  {
    assert s == s[..k] + s[k..];
    CountPrefix(s[..k], s[k..], q, k);
  }

  lemma {:induction false} CountGrows(s: seq<nat>, q: nat, j: nat, k: nat)
    requires j <= k <= |s|
    ensures Count(s, q, j) <= Count(s, q, k)
  {
    if j < k { CountGrows(s, q, j, k - 1); }
  }

  /** How often q is among the collected peers: at most as often as pipes lead to it, and as often
      if there are no more than sixteen peers. */
  lemma PeersNamed(n: Net, id: nat, proto: int, q: nat)
    ensures var peers, pipes := Peers(n, id, proto), PipesTo(n.pipes, id, q, proto, |n.pipes|);
            && (q >= |n.socks| || n.socks[q] != Some(proto) ==> Count(peers, q, |peers|) == 0)
            && Count(peers, q, |peers|) <= pipes
            && (q < |n.socks| && n.socks[q] == Some(proto) && |PeersUpTo(n, id, proto, |n.pipes|)| <= 16 ==>
                  Count(peers, q, |peers|) == pipes)
  {
    var all, peers := PeersUpTo(n, id, proto, |n.pipes|), Peers(n, id, proto);
    PeersAreFirst(n, id, proto);
    PeersCount(n, id, proto, q, |n.pipes|);
    CountFirst(all, q, |peers|);
    CountGrows(all, q, |peers|, |all|);
  }

  /** The protocol that the peers of a socket speak. */
  function PeerProtocol(proto: int): int {
    if proto == 2 then 3 else if proto == 6 then 7 else if proto == 4 then 5 else if proto == 9 then 10
    else proto
  }

  /** A publish, a broadcast or a survey: socket q gets at most as many copies as pipes lead to it,
      none if it does not speak the matching protocol or, as a subscriber, has no topic that admits
      the body, and otherwise exactly as many, unless there are more than sixteen peers or its
      queue, the pool or the heap is exhausted in the end. */
  lemma FanReaches(n: Net, id: nat, body: Body, now: nat, q: nat) returns (d: nat)
    requires Shape(n) && Open(n, id) && n.socks[id].value in {2, 8, 9} && q < 16
    ensures var m, proto := Route(n, id, body, now).0, n.socks[id].value;
            var filter := PeerProtocol(proto);
            var pipes := PipesTo(n.pipes, id, q, filter, |n.pipes|);
            && m.queues[q] == n.queues[q] + Copies(body, d) && d <= pipes
            && (n.socks[q] != Some(filter) || (proto == 2 && !Admits(n.states[q].topics, body)) ==> d == 0)
            && (d < pipes && n.socks[q] == Some(filter) && (proto == 2 ==> Admits(n.states[q].topics, body))
                && |PeersUpTo(n, id, filter, |n.pipes|)| <= 16 ==>
                  m.used >= 64 || m.small < 2 || |body| > 256 || |m.queues[q]| >= 16)
  {
    var proto := n.socks[id].value;
    if proto == 2 {
      d := FanReachesBy(n, ToSubscribers, id, SUB, body, q);
    } else if proto == 8 {
      d := FanReachesBy(n, ToAll, id, BUS, body, q);
    } else {
      d := FanReachesBy(n, ToRespondents(id), id, RESPONDENT, body, q);
      if Peers(n, id, RESPONDENT) == [] { SurveyOfNobody(n, id, body, now, q, d); }
    }
  }

  lemma SurveyOfNobody(n: Net, id: nat, body: Body, now: nat, q: nat, d: nat)
    requires Shape(n) && Open(n, id) && n.socks[id].value == 9 && q < 16 && Peers(n, id, RESPONDENT) == []
    requires AllSockets(Peers(n, id, RESPONDENT))
    requires FanOut(n, ToRespondents(id), Peers(n, id, RESPONDENT), body, 0).queues[q] == n.queues[q] + Copies(body, d)
    ensures Route(n, id, body, now).0 == n
  {}

  lemma FanReachesBy(n: Net, fan: Fan, id: nat, filter: int, body: Body, q: nat) returns (d: nat)
    requires Shape(n) && q < 16
    ensures AllSockets(Peers(n, id, filter))
    ensures var peers := Peers(n, id, filter);
            var m, pipes := FanOut(n, fan, peers, body, |peers|), PipesTo(n.pipes, id, q, filter, |n.pipes|);
            && m.queues[q] == n.queues[q] + Copies(body, d) && d <= pipes
            && (n.socks[q] != Some(filter) || (fan.ToSubscribers? && !Admits(n.states[q].topics, body)) ==> d == 0)
            && (d < pipes && n.socks[q] == Some(filter) && (fan.ToSubscribers? ==> Admits(n.states[q].topics, body))
                && |PeersUpTo(n, id, filter, |n.pipes|)| <= 16 ==>
                  m.used >= 64 || m.small < 2 || |body| > 256 || |m.queues[q]| >= 16)
  {
    var peers := Peers(n, id, filter);
    PeersValid(n, id, filter);
    d := FanOutAppends(n, fan, peers, body, |peers|, q);
    WantedIs(n, fan, peers, body, q, |peers|);
    AdmitsIs(n, q, body);
    PeersNamed(n, id, filter, q);
    RoomIff(FanOut(n, fan, peers, body, |peers|), q, body);
  }

  /** Whose queue a send by one of the other protocols is for: of a pair, the first peer; of a push
      or a request, the peer whose turn it is; of a reply, the pending requester; of a response,
      the pending surveyor as long as its survey is open. Nobody, if there is none. */
  ghost function Addressee(n: Net, id: nat, now: nat): Option<nat>
    requires Shape(n) && Open(n, id)
  {
    var proto, s := n.socks[id].value, n.states[id];
    if proto in {1, 4, 6} then
      var peers := Peers(n, id, PeerProtocol(proto));
      if peers == [] then None
      else if proto == 1 || s.cursor >= |peers| then Some(peers[0])
      else Some(peers[s.cursor])
    else if proto == 5 then
      if 0 <= s.replySrc < 16 && n.socks[s.replySrc].Some? then Some(s.replySrc) else None
    else if proto == 10 then
      if 0 <= s.respondentSrc < 16 && n.socks[s.respondentSrc].Some?
         && n.states[s.respondentSrc].active && now <= n.states[s.respondentSrc].deadline
      then Some(s.respondentSrc) else None
    else None
  }

  /** The body is at the end of the addressee's queue, if it had room, and nowhere else. */
  ghost predicate Appended(n: Net, m: Net, rv: int, to: Option<nat>, body: Body, q: nat)
    requires q < |n.queues| && q < |m.queues|
  {
    && m.queues[q] == (if to == Some(q) && n.used < 64 && n.small >= 2 && |body| <= 256 && |n.queues[q]| < 16
                       then n.queues[q] + [body] else n.queues[q])
    && (to == Some(q) ==> (rv == 0 <==> m.queues[q] != n.queues[q]) && rv in {0, 1})
  }

  lemma DeliverAppends(n: Net, to: nat, body: Body, q: nat)
    requires |n.queues| == 16 && to < 16 && q < 16
    ensures var (m, rv) := Deliver(n, to, body);
            |m.queues| == 16 && Appended(n, m, rv, Some(to), body, q) && m.states == n.states
  {
    assert |n.queues[q] + [body]| != |n.queues[q]|;
  }

  /** Such a send appends the body to its addressee's queue, if there is one and it has room, and
      to no other, and says so. */
  lemma OneReaches(n: Net, id: nat, body: Body, now: nat, q: nat)
    requires Shape(n) && Open(n, id) && n.socks[id].value !in {2, 8, 9} && q < 16
    ensures var (m, rv), to := Route(n, id, body, now), Addressee(n, id, now);
            Appended(n, m, rv, to, body, q) && (to == None ==> rv in {4, 5})
  {
    var proto, to := n.socks[id].value, Addressee(n, id, now);
    if proto in {1, 4, 6} { PeersValid(n, id, PeerProtocol(proto)); }
    if to.Some? { DeliverAppends(n, to.value, body, q); }
  }

  lemma NoCopies(queue: seq<Body>, body: Body)
    ensures queue + Copies(body, 0) == queue
  {}

  lemma PeerLinked(n: Net, id: nat, proto: int, j: nat)
    requires j < |Peers(n, id, proto)|
    ensures Linked(n, id, Peers(n, id, proto)[j], proto)
  {
    PeerIff(n, id, proto, Peers(n, id, proto)[j]);
  }

  /** A send changes no queue but those of sockets that one of the sender's pipes leads to and that
      speak the matching protocol, apart from a pending requester's or surveyor's. */
  lemma SendReaches(n: Net, id: nat, body: Body, now: nat, q: nat)
    requires Shape(n) && Open(n, id) && q < 16
    requires Route(n, id, body, now).0.queues[q] != n.queues[q]
    ensures var proto := n.socks[id].value;
            if proto == 5 then q == n.states[id].replySrc
            else if proto == 10 then q == n.states[id].respondentSrc
            else proto in {1, 2, 4, 6, 8, 9} && Linked(n, id, q, PeerProtocol(proto))
  {
    var proto := n.socks[id].value;
    if proto in {2, 8, 9} {
      var d := FanReaches(n, id, body, now, q);
      NoCopies(n.queues[q], body);
      PipesPositive(n.pipes, id, q, PeerProtocol(proto), |n.pipes|);
    } else {
      OneReaches(n, id, body, now, q);
      if proto in {1, 4, 6} {
        var peers := Peers(n, id, PeerProtocol(proto));
        PeerLinked(n, id, PeerProtocol(proto), if proto == 1 || n.states[id].cursor >= |peers| then 0 else n.states[id].cursor);
      }
    }
  }
}
