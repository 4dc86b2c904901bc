/** What the messaging layer keeps over every run of calls. */
module NngLaws {
  import opened Tables
  import opened NngSpec

  // ----------------------------------------------------------------- conservation

  function Total(queues: seq<seq<Body>>): nat {
    if queues == [] then 0 else Total(queues[..|queues| - 1]) + |queues[|queues| - 1]|
  }

  function SmallOnes(held: map<nat, Message>): set<nat> {
    set p | p in held && held[p].small
  }

  /** Every pool slot in use is a message some caller holds or some queue contains, and the
      heap blocks taken are exactly two for each of these. */
  ghost predicate Balanced(n: Net, small: int, medium: int) {
    && n.used == |n.held| + Total(n.queues)
    && n.small + 2 * Total(n.queues) + |n.held| + |SmallOnes(n.held)| == small
    && n.medium + |n.held| - |SmallOnes(n.held)| == medium
    && n.used <= MAX_MESSAGES && n.small >= 0 && n.medium >= 0
  }

  /** Closed sockets have empty queues and no pipes; the bounds of the tables hold. */
  ghost predicate Bounded(n: Net) {
    && Shape(n)
    && (forall i :: 0 <= i < MAX_SOCKETS ==> |n.queues[i]| <= QUEUE_DEPTH)
    && (forall i :: 0 <= i < MAX_SOCKETS && n.socks[i].None? ==> n.queues[i] == [])
    && (forall i :: 0 <= i < MAX_SOCKETS ==> |n.states[i].topics| <= MAX_SUBS)
    && (forall i :: 0 <= i < MAX_PIPES && n.pipes[i].Some? ==>
          Open(n, n.pipes[i].value.src) && Open(n, n.pipes[i].value.dst))
  }

  ghost predicate Good(n: Net, small: int, medium: int) {
    Bounded(n) && Balanced(n, small, medium)
  }

  lemma {:induction false} TotalUpdate(queues: seq<seq<Body>>, i: nat, q: seq<Body>)
    requires i < |queues|
    ensures Total(queues[i := q]) == Total(queues) - |queues[i]| + |q|
  {
    var k := |queues| - 1;
    if i == k {
      assert queues[i := q][..k] == queues[..k];
    } else {
      TotalUpdate(queues[..k], i, q);
      assert queues[i := q][..k] == queues[..k][i := q];
    }
  }

  lemma SmallGrows(held: map<nat, Message>, p: nat, m: Message)
    requires p !in held
    ensures |SmallOnes(held[p := m])| == |SmallOnes(held)| + (if m.small then 1 else 0)
  {
    assert SmallOnes(held[p := m]) == SmallOnes(held) + (if m.small then {p} else {});
  }

  lemma HeldSizes(held: map<nat, Message>, p: nat, m: Message)
    requires p !in held
    ensures |held[p := m]| == |held| + 1
    ensures |SmallOnes(held[p := m])| == |SmallOnes(held)| + (if m.small then 1 else 0)
  {
    MapSizes<nat, Message>(held, p, m);
    SmallGrows(held, p, m);
  }

  lemma SmallShrinks(held: map<nat, Message>, p: nat)
    requires p in held
    ensures |SmallOnes(Without<nat, Message>(held, p))| == |SmallOnes(held)| - (if held[p].small then 1 else 0)
  {
    assert SmallOnes(held) == SmallOnes(Without<nat, Message>(held, p)) + (if held[p].small then {p} else {});
  }

  lemma WithoutSizes(held: map<nat, Message>, p: nat)
    requires p in held
    ensures |Without<nat, Message>(held, p)| == |held| - 1
    ensures |SmallOnes(Without<nat, Message>(held, p))| == |SmallOnes(held)| - (if held[p].small then 1 else 0)
    ensures |SmallOnes(held)| <= |held|
  {
    MapSizes<nat, Message>(held, p, held[p]);
    SmallShrinks(held, p);
    SmallBound(held);
  }

  lemma SmallBound(held: map<nat, Message>)
    ensures |SmallOnes(held)| <= |held|
  {
    assert held.Keys == SmallOnes(held) + (held.Keys - SmallOnes(held));
    assert |held.Keys| == |SmallOnes(held)| + |held.Keys - SmallOnes(held)|;
  }

  lemma ReplaceSizes(held: map<nat, Message>, p: nat, m: Message)
    requires p in held && m.small == held[p].small
    ensures |held[p := m]| == |held| && |SmallOnes(held[p := m])| == |SmallOnes(held)|
  {
    assert held[p := m].Keys == held.Keys;
    assert SmallOnes(held[p := m]) == SmallOnes(held);
  }

  lemma DeliverKeeps(n: Net, id: nat, body: Body, small: int, medium: int)
    requires Good(n, small, medium) && Open(n, id)
    ensures var m := Deliver(n, id, body).0; Good(m, small, medium)
  {
    TotalUpdate(n.queues, id, n.queues[id] + [body]);
  }

  lemma StateKeeps(n: Net, id: nat, s: State, small: int, medium: int)
    requires Good(n, small, medium) && id < MAX_SOCKETS && |s.topics| <= MAX_SUBS
    ensures Good(SetState(n, id, s), small, medium)
  {}

  lemma FanOneKeeps(n: Net, fan: Fan, id: nat, body: Body, small: int, medium: int)
    requires Good(n, small, medium) && Open(n, id)
    ensures var m := FanOne(n, fan, id, body); Good(m, small, medium)
  {
    DeliverKeeps(n, id, body, small, medium);
    if fan.ToRespondents? {
      var m := Deliver(n, id, body).0;
      StateKeeps(m, id, m.states[id].(respondentSrc := fan.surveyor), small, medium);
    }
  }

  lemma {:induction false} FanOutKeeps(
      n: Net, fan: Fan, peers: seq<nat>, body: Body, k: nat, small: int, medium: int)
    requires Good(n, small, medium) && k <= |peers| && AllSockets(peers)
    requires forall i :: 0 <= i < |peers| ==> Open(n, peers[i])
    ensures var m := FanOut(n, fan, peers, body, k); Good(m, small, medium)
  {
    if k > 0 {
      FanOutKeeps(n, fan, peers, body, k - 1, small, medium);
      FanOneKeeps(FanOut(n, fan, peers, body, k - 1), fan, peers[k - 1], body, small, medium);
    }
  }

  lemma FanKeeps(n: Net, fan: Fan, id: nat, proto: int, body: Body, small: int, medium: int)
    requires Good(n, small, medium)
    ensures var peers := Peers(n, id, proto);
            AllSockets(peers) &&
            var m := FanOut(n, fan, peers, body, |peers|); Good(m, small, medium) && Routed(n, m)
  {
    PeersValid(n, id, proto);
    FanOutKeeps(n, fan, Peers(n, id, proto), body, |Peers(n, id, proto)|, small, medium);
  }

  lemma PushKeeps(n: Net, id: nat, body: Body, peers: seq<nat>, small: int, medium: int)
    requires Good(n, small, medium) && id < MAX_SOCKETS && AllSockets(peers)
    requires forall i :: 0 <= i < |peers| ==> Open(n, peers[i])
    ensures var m := RoutePush(n, id, body, peers).0; Good(m, small, medium) && Routed(n, m)
  {
    if peers != [] {
      var i := Turn(n.states[id].cursor, |peers|);
      DeliverKeeps(n, peers[i], body, small, medium);
      var m := Deliver(n, peers[i], body).0;
      StateKeeps(m, id, m.states[id].(cursor := NextTurn(i, |peers|)), small, medium);
    }
  }

  lemma RequestKeeps(n: Net, id: nat, body: Body, peers: seq<nat>, small: int, medium: int)
    requires Good(n, small, medium) && id < MAX_SOCKETS && AllSockets(peers)
    requires forall i :: 0 <= i < |peers| ==> Open(n, peers[i])
    ensures var m := RouteRequest(n, id, body, peers).0; Good(m, small, medium) && Routed(n, m)
  {
    if peers != [] {
      var i := Turn(n.states[id].cursor, |peers|);
      DeliverKeeps(n, peers[i], body, small, medium);
      var m := Deliver(n, peers[i], body).0;
      StateKeeps(m, peers[i], m.states[peers[i]].(replySrc := id), small, medium);
      var r := SetState(m, peers[i], m.states[peers[i]].(replySrc := id));
      StateKeeps(r, id, r.states[id].(cursor := NextTurn(i, |peers|)), small, medium);
    }
  }

  lemma ReplyKeeps(n: Net, id: nat, body: Body, small: int, medium: int)
    requires Good(n, small, medium) && id < MAX_SOCKETS
    ensures var m := RouteReply(n, id, body).0; Good(m, small, medium) && Routed(n, m)
  {
    var to := n.states[id].replySrc;
    if Open(n, to) {
      DeliverKeeps(n, to, body, small, medium);
      var m := Deliver(n, to, body).0;
      StateKeeps(m, id, m.states[id].(replySrc := -1), small, medium);
    }
  }

  lemma SurveyKeeps(n: Net, id: nat, body: Body, now: nat, small: int, medium: int)
    requires Good(n, small, medium) && id < MAX_SOCKETS
    ensures var peers := Peers(n, id, RESPONDENT);
            AllSockets(peers) &&
            var m := RouteSurvey(n, id, body, peers, now).0; Good(m, small, medium) && Routed(n, m)
  {
    var peers := Peers(n, id, RESPONDENT);
    FanKeeps(n, ToRespondents(id), id, RESPONDENT, body, small, medium);
    var m := FanOut(n, ToRespondents(id), peers, body, |peers|);
    StateKeeps(m, id, m.states[id].(active := true, deadline := now + SURVEY_TICKS), small, medium);
  }

  lemma ResponseKeeps(n: Net, id: nat, body: Body, now: nat, small: int, medium: int)
    requires Good(n, small, medium) && id < MAX_SOCKETS
    ensures var m := RouteResponse(n, id, body, now).0; Good(m, small, medium) && Routed(n, m)
  {
    var to := n.states[id].respondentSrc;
    StateKeeps(n, id, n.states[id].(respondentSrc := -1), small, medium);
    if Open(n, to) {
      DeliverKeeps(n, to, body, small, medium);
      var m := Deliver(n, to, body).0;
      StateKeeps(m, id, m.states[id].(respondentSrc := -1), small, medium);
    }
  }

  lemma RouteKeeps(n: Net, id: nat, body: Body, now: nat, small: int, medium: int)
    requires Good(n, small, medium) && Open(n, id)
    ensures var m := Route(n, id, body, now).0; Good(m, small, medium) && Routed(n, m)
  {
    var proto := n.socks[id].value;
    if proto == PUB {
      FanKeeps(n, ToSubscribers, id, SUB, body, small, medium);
    } else if proto == BUS {
      FanKeeps(n, ToAll, id, BUS, body, small, medium);
    } else if proto == PUSH {
      PeersValid(n, id, PULL);
      PushKeeps(n, id, body, Peers(n, id, PULL), small, medium);
    } else if proto == REQ {
      PeersValid(n, id, REP);
      RequestKeeps(n, id, body, Peers(n, id, REP), small, medium);
    } else if proto == REP {
      ReplyKeeps(n, id, body, small, medium);
    } else if proto == SURVEYOR {
      SurveyKeeps(n, id, body, now, small, medium);
    } else if proto == RESPONDENT {
      ResponseKeeps(n, id, body, now, small, medium);
    } else if proto == PAIR {
      PeersValid(n, id, PAIR);
      if Peers(n, id, PAIR) != [] { DeliverKeeps(n, Peers(n, id, PAIR)[0], body, small, medium); }
    }
  }

  lemma CloseKeeps(n: Net, id: nat, small: int, medium: int)
    requires Good(n, small, medium) && id < MAX_SOCKETS
    ensures Good(CloseSocket(n, id), small, medium)
  {
    TotalUpdate(n.queues, id, []);
  }

  lemma SendKeeps(n: Net, id: int, p: nat, now: nat, small: int, medium: int)
    requires Good(n, small, medium)
    ensures var m := Apply(n, Send(id, p, now)).0; Good(m, small, medium)
  {
    if Open(n, id) && p in n.held {
      RouteKeeps(n, id, n.held[p].body, now, small, medium);
      WithoutSizes(n.held, p);
    }
  }

  lemma RecvKeeps(n: Net, id: int, p: nat, now: nat, small: int, medium: int)
    requires Good(n, small, medium) && p !in n.held
    ensures var m := Apply(n, Recv(id, p, now)).0; Good(m, small, medium)
  {
    if Open(n, id) {
      var s := n.states[id];
      StateKeeps(n, id, s.(active := false), small, medium);
      var m := if Speaks(n, id, SURVEYOR) && s.active && now > s.deadline
               then SetState(n, id, s.(active := false)) else n;
      if m.queues[id] != [] { TakeKeeps(m, id, p, small, medium); }
    }
  }

  lemma TakeKeeps(n: Net, id: nat, p: nat, small: int, medium: int)
    requires Good(n, small, medium) && p !in n.held && Open(n, id) && n.queues[id] != []
    ensures Good(n.(queues := n.queues[id := n.queues[id][1..]],
                    held := n.held[p := Message(n.queues[id][0], true)]), small, medium)
  {
    TotalUpdate(n.queues, id, n.queues[id][1..]);
    HeldSizes(n.held, p, Message(n.queues[id][0], true));
  }

  lemma MessageCallKeeps(n: Net, call: Call, small: int, medium: int)
    requires Good(n, small, medium) && Legal(n, call) && (call.Alloc? || call.Free? || call.Append?)
    ensures Good(Apply(n, call).0, small, medium)
  {
    match call {
      case Alloc(size, p) => HeldSizes(n.held, p, Message([], size <= SMALL_BLOCK));
      case Free(p) => if p in n.held { WithoutSizes(n.held, p); }
      case Append(p, data) =>
        if p in n.held { ReplaceSizes(n.held, p, n.held[p].(body := n.held[p].body + data)); }
    }
  }

  lemma SocketCallKeeps(n: Net, call: Call, small: int, medium: int)
    requires Good(n, small, medium) && (call.Create? || call.Close? || call.Connect?)
    ensures Good(Apply(n, call).0, small, medium)
  {
    if call.Close? && Open(n, call.id) { CloseKeeps(n, call.id, small, medium); }
  }

  lemma TopicCallKeeps(n: Net, call: Call, small: int, medium: int)
    requires Good(n, small, medium) && (call.Subscribe? || call.Unsubscribe?)
    ensures Good(Apply(n, call).0, small, medium)
  {}

  /** Every call, successful or not, keeps the books and the bounds. */
  lemma CallKeeps(n: Net, call: Call, small: int, medium: int)
    requires Good(n, small, medium) && Legal(n, call)
    ensures Good(Apply(n, call).0, small, medium)
  {
    match call {
      case Alloc(_, _) => MessageCallKeeps(n, call, small, medium);
      case Free(_) => MessageCallKeeps(n, call, small, medium);
      case Append(_, _) => MessageCallKeeps(n, call, small, medium);
      case Create(_) => SocketCallKeeps(n, call, small, medium);
      case Close(_) => SocketCallKeeps(n, call, small, medium);
      case Connect(_, _) => SocketCallKeeps(n, call, small, medium);
      case Subscribe(_, _) => TopicCallKeeps(n, call, small, medium);
      case Unsubscribe(_, _) => TopicCallKeeps(n, call, small, medium);
      case Send(id, p, now) => SendKeeps(n, id, p, now, small, medium);
      case Recv(id, p, now) => RecvKeeps(n, id, p, now, small, medium);
    }
  }

  ghost predicate AllShaped(nets: seq<Net>) {
    forall i :: 0 <= i < |nets| ==> Shape(nets[i])
  }

  /** `nets` is a run of calls: each call takes one state to the next. (Every call keeps the
      shape of the tables, so AllShaped is a condition on the first state only.) */
  ghost predicate IsRun(nets: seq<Net>, calls: seq<Call>) {
    && |nets| == |calls| + 1
    && AllShaped(nets)
    && forall i {:trigger StepAt(nets, calls, i)} :: 0 <= i < |calls| ==> StepAt(nets, calls, i)
  }

  ghost predicate StepAt(nets: seq<Net>, calls: seq<Call>, i: nat)
    requires i < |calls| < |nets| && AllShaped(nets)
  {
    Legal(nets[i], calls[i]) && nets[i + 1] == Apply(nets[i], calls[i]).0
  }

  ghost predicate Initial(n: Net) {
    && Shape(n) && n.held == map[] && n.used == 0 && n.small >= 0 && n.medium >= 0
    && (forall i :: 0 <= i < MAX_SOCKETS ==> n.socks[i].None? && n.queues[i] == [] && n.states[i] == Cleared(n.states[i]))
    && (forall i :: 0 <= i < MAX_PIPES ==> n.pipes[i].None?)
  }

  lemma {:induction false} NoneQueued(queues: seq<seq<Body>>)
    requires forall i :: 0 <= i < |queues| ==> queues[i] == []
    ensures Total(queues) == 0
  {
    if queues != [] { NoneQueued(queues[..|queues| - 1]); }
  }

  /** Over any run nothing is lost and nothing is counted twice. */
  lemma {:induction false} RunConserves(nets: seq<Net>, calls: seq<Call>, k: nat)
    requires IsRun(nets, calls) && Initial(nets[0]) && k <= |calls|
    ensures Good(nets[k], nets[0].small, nets[0].medium)
  {
    if k == 0 {
      NoneQueued(nets[0].queues);
      assert SmallOnes(nets[0].held) == {};
    } else {
      RunConserves(nets, calls, k - 1);
      assert StepAt(nets, calls, k - 1);
      CallKeeps(nets[k - 1], calls[k - 1], nets[0].small, nets[0].medium);
    }
  }
}
