/** What each call of the messaging layer answers, and when: the codes 0 (done), 1 (no room),
    2 (bad argument), 4 (timed out), 5 (nobody there), 6 (no such topic). */
module NngCodes {
  import opened NngSpec
  import opened NngLaws
  import opened NngPeers

  lemma MessageCodes(n: Net, size: nat, p: nat, data: Body)
    ensures OnAlloc(n, size, p).1 ==
            if n.used >= 64 then 1
            else if size > 256 then 2
            else if size <= 64 then (if n.small >= 2 then 0 else 1)
            else if n.small >= 1 && n.medium >= 1 then 0 else 1
    ensures OnFree(n, p).1 == if p in n.held then 0 else 2
    ensures OnAppend(n, p, data).1 ==
            if p !in n.held then 2 else if |n.held[p].body| + |data| > 256 then 1 else 0
  {}

  /** What a message costs, and that freeing it gives that back. */
  lemma MessageCosts(n: Net, size: nat, p: nat)
    requires p !in n.held && OnAlloc(n, size, p).1 == 0
    ensures var m := OnAlloc(n, size, p).0;
            && m.used == n.used + 1
            && (if size <= 64 then m.small == n.small - 2 && m.medium == n.medium
                else m.small == n.small - 1 && m.medium == n.medium - 1)
            && m.held.Keys == n.held.Keys + {p} && m.held[p].body == []
            && OnFree(m, p) == (n, 0)
  {
    var m := OnAlloc(n, size, p).0;
    assert Tables.Without<nat, Message>(m.held, p) == n.held;
  }

  lemma SocketCodes(n: Net, proto: int, id: int, src: int, dst: int, p: nat, now: nat)
    requires Shape(n)
    ensures OnCreate(n, proto).1 == if exists i :: 0 <= i < 16 && n.socks[i].None? then 0 else 1
    ensures OnClose(n, id).1 == if 0 <= id < 16 && n.socks[id].Some? then 0 else 2
    ensures OnConnect(n, src, dst).1 ==
            if !(0 <= src < 16 && n.socks[src].Some?) || !(0 <= dst < 16 && n.socks[dst].Some?) then 2
            else if exists i :: 0 <= i < 64 && n.pipes[i].None? then 0 else 1
    ensures OnRecv(n, id, p, now).1 ==
            if !(0 <= id < 16 && n.socks[id].Some?) then 2 else if n.queues[id] == [] then 4 else 0
  {}

  lemma TopicCodes(n: Net, id: int, topic: Body)
    requires Shape(n)
    ensures var sub := 0 <= id < 16 && n.socks[id] == Some(3);
            && OnSubscribe(n, id, topic).1 ==
                 (if !sub || |topic| > 32 then 2 else if |n.states[id].topics| >= 8 then 1 else 0)
            && OnUnsubscribe(n, id, topic).1 == (if !sub then 2 else if topic in n.states[id].topics then 0 else 6)
  {}

  /** A socket that is created is the lowest free one and starts without a cursor, addresses, an
      open survey or topics. */
  lemma CreatedSocket(n: Net, proto: int)
    requires Shape(n) && OnCreate(n, proto).1 == 0
    ensures var m, id := OnCreate(n, proto).0, FreeSocket(n, 0);
            && id < 16 && n.socks[id].None? && (forall i :: 0 <= i < id ==> n.socks[i].Some?)
            && m.socks == n.socks[id := Some(proto)] && m.pipes == n.pipes && m.queues == n.queues
            && m.states[id].cursor == 0 && m.states[id].replySrc == -1 && m.states[id].respondentSrc == -1
            && !m.states[id].active && m.states[id].topics == []
            && (forall i :: 0 <= i < 16 && i != id ==> m.states[i] == n.states[i])
  {}

  /** A connection is the lowest free pipe, from the one to the other. */
  lemma ConnectedPipe(n: Net, src: nat, dst: nat)
    requires Shape(n) && OnConnect(n, src, dst).1 == 0
    ensures var m, i := OnConnect(n, src, dst).0, FreePipe(n, 0);
            && i < 64 && n.pipes[i].None? && (forall j :: 0 <= j < i ==> n.pipes[j].Some?)
            && m == n.(pipes := n.pipes[i := Some(Pipe(src, dst))])
  {}

  /** A send without anybody to send to: whom it reaches otherwise is in FanReaches and OneReaches. */
  lemma SendCodes(n: Net, id: int, p: nat, now: nat)
    requires Shape(n)
    ensures OnSend(n, id, p, now).1 == 2 <==> !(0 <= id < 16 && n.socks[id].Some?) || p !in n.held
    ensures OnSend(n, id, p, now).1 == 2 ==> OnSend(n, id, p, now).0 == n
    ensures OnSend(n, id, p, now).1 != 2 ==> p !in OnSend(n, id, p, now).0.held
  {
    if 0 <= id < 16 && n.socks[id].Some? && p in n.held {
      RouteCode(n, id, n.held[p].body, now);
    }
  }

  lemma RouteCode(n: Net, id: nat, body: Body, now: nat)
    requires Shape(n) && Open(n, id)
    ensures Route(n, id, body, now).1 in {0, 1, 4, 5}
    ensures n.socks[id].value in {2, 8} ==> Route(n, id, body, now).1 == 0
    ensures n.socks[id].value == 9 ==> Route(n, id, body, now).1 == if Peers(n, id, 10) == [] then 5 else 0
  {
    var proto := n.socks[id].value;
    if proto in {2, 8, 9} {
      PeersValid(n, id, PeerProtocol(proto));
    } else {
      var q := if Addressee(n, id, now).Some? && Addressee(n, id, now).value < 16 then Addressee(n, id, now).value else 0;
      OneReaches(n, id, body, now, q);
      AddresseeInRange(n, id, now);
    }
  }

  lemma AddresseeInRange(n: Net, id: nat, now: nat)
    requires Shape(n) && Open(n, id)
    ensures Addressee(n, id, now).Some? ==> Addressee(n, id, now).value < 16
  {
    PeersValid(n, id, PeerProtocol(n.socks[id].value));
  }

  /** A request that was delivered leaves its sender's address with the replier and passes the turn
      on; one that was not leaves both as they were. */
  lemma RequestTurn(n: Net, id: nat, body: Body, now: nat)
    requires Shape(n) && Open(n, id) && n.socks[id].value == 4 && Peers(n, id, 5) != []
    ensures var (m, rv), peers, c := Route(n, id, body, now), Peers(n, id, 5), n.states[id].cursor;
            var turn := if c >= |peers| then 0 else c;
            if rv == 0 then
              && m.states[id].cursor == (if turn + 1 >= |peers| then 0 else turn + 1)
              && peers[turn] < 16 && (peers[turn] != id ==> m.states[peers[turn]].replySrc == id)
              && n.socks[peers[turn]] == Some(5)
            else m.states == n.states
  {
    PeersValid(n, id, REP);
  }
}
