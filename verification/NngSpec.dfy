/** The in-kernel messaging layer as its users see it: sockets, directed pipes, one FIFO of
    message bodies per socket, and the resources a message costs. */
module NngSpec {
  import opened Tables
  import opened Widths

  datatype Option<+T> = None | Some(value: T)

  type Body = seq<Byte>

  const MAX_MESSAGES: nat := 64
  const MAX_SOCKETS: nat := 16
  const MAX_PIPES: nat := 64
  const QUEUE_DEPTH: nat := 16
  const BODY_SIZE: nat := 256
  const SMALL_BLOCK: nat := 64
  const MAX_SUBS: nat := 8
  const MAX_TOPIC: nat := 32
  const SURVEY_TICKS: nat := 100

  const OK := 0
  const ENOMEM := 1
  const EINVAL := 2
  const ETIMEDOUT := 4
  const ENOTSUP := 5
  const ENOENT := 6

  const PAIR := 1
  const PUB := 2
  const SUB := 3
  const REQ := 4
  const REP := 5
  const PUSH := 6
  const PULL := 7
  const BUS := 8
  const SURVEYOR := 9
  const RESPONDENT := 10

  datatype Pipe = Pipe(src: nat, dst: nat)

  /** Per-socket protocol state. -1 stands for "nobody" in the two reply addresses. */
  datatype State = State(
    cursor: nat, replySrc: int, respondentSrc: int, deadline: nat, active: bool, topics: seq<Body>)

  /** A message a caller owns: its body, and whether its buffer is a small heap block. */
  datatype Message = Message(body: Body, small: bool)

  datatype Net = Net(
    socks: seq<Option<int>>,        // the protocol of each open socket
    pipes: seq<Option<Pipe>>,
    states: seq<State>,
    queues: seq<seq<Body>>,         // the bodies as they were sent
    held: map<nat, Message>,        // by handle
    used: int,                      // message pool slots taken
    small: int,                     // free 64-byte heap blocks
    medium: int,                    // free 256-byte heap blocks
    intact: bool)                   // no call has written a body past its block

  predicate Shape(n: Net) {
    && |n.socks| == MAX_SOCKETS && |n.states| == MAX_SOCKETS && |n.queues| == MAX_SOCKETS
    && |n.pipes| == MAX_PIPES
    && forall i :: 0 <= i < MAX_PIPES && n.pipes[i].Some? ==>
         n.pipes[i].value.src < MAX_SOCKETS && n.pipes[i].value.dst < MAX_SOCKETS
  }

  predicate Open(n: Net, id: int) {
    0 <= id < |n.socks| && n.socks[id].Some?
  }

  predicate Speaks(n: Net, id: int, proto: int) {
    Open(n, id) && n.socks[id].value == proto
  }

  function Cleared(s: State): State {
    s.(cursor := 0, replySrc := -1, respondentSrc := -1, active := false, topics := [])
  }

  // ------------------------------------------------------------------- resources

  function FreshMessage(n: Net, p: nat, size: nat): Net {
    var small := size <= SMALL_BLOCK;
    n.(held := n.held[p := Message([], small)],
       used := n.used + 1,
       small := n.small - (if small then 2 else 1),
       medium := n.medium - (if small then 0 else 1))
  }

  /** A message of this size can be had: a pool slot, a small block for its header, and a
      block for its body. */
  predicate CanAlloc(n: Net, size: nat) {
    n.used < MAX_MESSAGES &&
    if size <= SMALL_BLOCK then n.small >= 2 else n.small >= 1 && n.medium >= 1
  }

  function DropHeld(n: Net, p: nat): Net
    requires p in n.held
  {
    var small := n.held[p].small;
    n.(held := Without<nat, Message>(n.held, p),
       used := n.used - 1,
       small := n.small + (if small then 2 else 1),
       medium := n.medium + (if small then 0 else 1))
  }

  /** Routing touches queues, protocol states and resources only. */
  predicate Routed(n: Net, m: Net) {
    && m.held == n.held && m.socks == n.socks && m.pipes == n.pipes
    && |m.queues| == |n.queues| && |m.states| == |n.states|
  }

  /** What a message's block holds. */
  function Capacity(small: bool): nat { if small then SMALL_BLOCK else BODY_SIZE }

  // --------------------------------------------------------------------- delivery

  /** A copy of the body can be made. */
  predicate CanCopy(n: Net, body: Body) { CanAlloc(n, 0) && |body| <= BODY_SIZE }

  /** A copy of the body can be made and queued at a socket. */
  predicate HasRoom(n: Net, id: nat, body: Body)
    requires id < |n.queues|
  {
    CanCopy(n, body) && |n.queues[id]| < QUEUE_DEPTH
  }

  /** A body has been written into a small block. */
  function Copied(n: Net, body: Body): Net { n.(intact := n.intact && |body| <= SMALL_BLOCK) }

  /** The copy is made in a small block before the queue is looked at. */
  function Deliver(n: Net, id: nat, body: Body): (Net, int)
    requires id < |n.queues|
  {
    if !CanCopy(n, body) then (n, ENOMEM)
    else if !HasRoom(n, id, body) then (Copied(n, body), ENOMEM)
    else (Copied(n, body).(queues := n.queues[id := n.queues[id] + [body]], used := n.used + 1, small := n.small - 2), OK)
  }

  /** The socket at the far end of a pipe, if it counts for a sender with this filter. */
  function PeerOf(n: Net, pipe: Option<Pipe>, id: nat, proto: int): seq<nat> {
    if pipe.None? then []
    else if pipe.value.src == id then (if Speaks(n, pipe.value.dst, proto) then [pipe.value.dst] else [])
    else if proto == BUS && pipe.value.dst == id then (if Speaks(n, pipe.value.src, proto) then [pipe.value.src] else [])
    else []
  }

  /** The peers that the first k pipes lead to, in pipe order. */
  function PeersUpTo(n: Net, id: nat, proto: int, k: nat): seq<nat>
    requires k <= |n.pipes|
  {
    if k == 0 then [] else PeersUpTo(n, id, proto, k - 1) + PeerOf(n, n.pipes[k - 1], id, proto)
  }

  /** The collected peers: at most 16, the first ones in pipe order. */
  function Peers(n: Net, id: nat, proto: int): seq<nat> {
    var all := PeersUpTo(n, id, proto, |n.pipes|);
    if |all| <= MAX_SOCKETS then all else all[..MAX_SOCKETS]
  }

  predicate IsPrefix(topic: Body, body: Body) {
    |topic| <= |body| && body[..|topic|] == topic
  }

  predicate Accepts(n: Net, id: nat, body: Body)
    requires id < |n.states|
  {
    exists i :: 0 <= i < |n.states[id].topics| && IsPrefix(n.states[id].topics[i], body)
  }

  predicate AllSockets(ids: seq<nat>) {
    forall i :: 0 <= i < |ids| ==> ids[i] < MAX_SOCKETS
  }

  /** What is done at each collected peer of a fan-out: deliver; deliver if subscribed;
      deliver and, on success, leave the return address. */
  datatype Fan = ToAll | ToSubscribers | ToRespondents(surveyor: nat)

  function FanOne(n: Net, fan: Fan, id: nat, body: Body): Net
    requires id < |n.queues| && id < |n.states|
  {
    if fan.ToSubscribers? && !Accepts(n, id, body) then n
    else
      var (m, rv) := Deliver(n, id, body);
      if fan.ToRespondents? && rv == OK
      then m.(states := m.states[id := m.states[id].(respondentSrc := fan.surveyor)])
      else m
  }

  /** A fan-out over the first k entries of a peer list. */
  function FanOut(n: Net, fan: Fan, peers: seq<nat>, body: Body, k: nat): (m: Net)
    requires k <= |peers| && AllSockets(peers) && |n.queues| == MAX_SOCKETS && |n.states| == MAX_SOCKETS
    ensures Routed(n, m)
  {
    if k == 0 then n else FanOne(FanOut(n, fan, peers, body, k - 1), fan, peers[k - 1], body)
  }

  // ---------------------------------------------------------------------- routing

  function Turn(cursor: nat, count: nat): nat { if cursor >= count then 0 else cursor }

  function NextTurn(i: nat, count: nat): nat { if i + 1 >= count then 0 else i + 1 }

  function SetState(n: Net, id: nat, s: State): Net
    requires id < |n.states|
  {
    n.(states := n.states[id := s])
  }

  lemma {:induction false} PeersInRange(n: Net, id: nat, proto: int, k: nat)
    requires Shape(n) && k <= |n.pipes|
    ensures forall i :: 0 <= i < |PeersUpTo(n, id, proto, k)| ==>
              Speaks(n, PeersUpTo(n, id, proto, k)[i], proto) && PeersUpTo(n, id, proto, k)[i] < MAX_SOCKETS
  {
    if k > 0 { PeersInRange(n, id, proto, k - 1); }
  }

  lemma PeersValid(n: Net, id: nat, proto: int)
    requires Shape(n)
    ensures AllSockets(Peers(n, id, proto)) && |Peers(n, id, proto)| <= MAX_SOCKETS
    ensures forall i :: 0 <= i < |Peers(n, id, proto)| ==> Speaks(n, Peers(n, id, proto)[i], proto)
  {
    PeersInRange(n, id, proto, |n.pipes|);
  }

  /** Routes one body from an open socket, by the socket's protocol. */
  ghost function Route(n: Net, id: nat, body: Body, now: nat): (r: (Net, int))
    requires Shape(n) && Open(n, id)
    ensures Routed(n, r.0)
  {
    var proto, s := n.socks[id].value, n.states[id];
    if proto == PUB then
      PeersValid(n, id, SUB);
      var peers := Peers(n, id, SUB);
      (FanOut(n, ToSubscribers, peers, body, |peers|), OK)
    else if proto == BUS then
      PeersValid(n, id, BUS);
      var peers := Peers(n, id, BUS);
      (FanOut(n, ToAll, peers, body, |peers|), OK)
    else if proto == PUSH then
      PeersValid(n, id, PULL);
      RoutePush(n, id, body, Peers(n, id, PULL))
    else if proto == REQ then
      PeersValid(n, id, REP);
      RouteRequest(n, id, body, Peers(n, id, REP))
    else if proto == REP then RouteReply(n, id, body)
    else if proto == SURVEYOR then
      PeersValid(n, id, RESPONDENT);
      RouteSurvey(n, id, body, Peers(n, id, RESPONDENT), now)
    else if proto == RESPONDENT then RouteResponse(n, id, body, now)
    else if proto == PAIR then
      PeersValid(n, id, PAIR);
      var peers := Peers(n, id, PAIR);
      if peers == [] then (n, ENOTSUP) else Deliver(n, peers[0], body)
    else (n, ENOTSUP)
  }

  /** Round-robin; the cursor moves on whether or not the delivery succeeds. */
  function RoutePush(n: Net, id: nat, body: Body, peers: seq<nat>): (r: (Net, int))
    requires |n.queues| == MAX_SOCKETS && |n.states| == MAX_SOCKETS && id < MAX_SOCKETS && AllSockets(peers)
    ensures Routed(n, r.0)
  {
    if peers == [] then (n, ENOTSUP)
    else
      var i := Turn(n.states[id].cursor, |peers|);
      var (m, rv) := Deliver(n, peers[i], body);
      (SetState(m, id, m.states[id].(cursor := NextTurn(i, |peers|))), rv)
  }

  /** Round-robin; a delivered request leaves its return address and moves the cursor on. */
  function RouteRequest(n: Net, id: nat, body: Body, peers: seq<nat>): (r: (Net, int))
    requires |n.queues| == MAX_SOCKETS && |n.states| == MAX_SOCKETS && id < MAX_SOCKETS && AllSockets(peers)
    ensures Routed(n, r.0)
  {
    if peers == [] then (n, ENOTSUP)
    else
      var i := Turn(n.states[id].cursor, |peers|);
      var (m, rv) := Deliver(n, peers[i], body);
      if rv != OK then (m, rv)
      else
        var a := SetState(m, peers[i], m.states[peers[i]].(replySrc := id));
        (SetState(a, id, a.states[id].(cursor := NextTurn(i, |peers|))), rv)
  }

  function RouteReply(n: Net, id: nat, body: Body): (r: (Net, int))
    requires |n.socks| == |n.queues| == |n.states| && id < |n.states|
    ensures Routed(n, r.0)
  {
    var to := n.states[id].replySrc;
    if !Open(n, to) then (n, ENOTSUP)
    else
      var (m, rv) := Deliver(n, to, body);
      (SetState(m, id, m.states[id].(replySrc := -1)), rv)
  }

  function RouteSurvey(n: Net, id: nat, body: Body, peers: seq<nat>, now: nat): (r: (Net, int))
    requires |n.queues| == MAX_SOCKETS && |n.states| == MAX_SOCKETS && id < MAX_SOCKETS && AllSockets(peers)
    ensures Routed(n, r.0)
  {
    if peers == [] then (n, ENOTSUP)
    else
      var m := FanOut(n, ToRespondents(id), peers, body, |peers|);
      (SetState(m, id, m.states[id].(active := true, deadline := now + SURVEY_TICKS)), OK)
  }

  function RouteResponse(n: Net, id: nat, body: Body, now: nat): (r: (Net, int))
    requires |n.socks| == |n.queues| == |n.states| && id < |n.states|
    ensures Routed(n, r.0)
  {
    var to := n.states[id].respondentSrc;
    if !Open(n, to) then (n, ENOTSUP)
    else if !n.states[to].active || now > n.states[to].deadline then
      (SetState(n, id, n.states[id].(respondentSrc := -1)), ETIMEDOUT)
    else
      var (m, rv) := Deliver(n, to, body);
      (SetState(m, id, m.states[id].(respondentSrc := -1)), rv)
  }

  // -------------------------------------------------------------------- the calls

  /** What a caller may ask for. Handles are those the calls returned. */
  datatype Call =
    | Alloc(size: nat, handle: nat)
    | Free(handle: nat)
    | Append(handle: nat, data: Body)
    | Create(proto: int)
    | Close(id: int)
    | Connect(src: int, dst: int)
    | Subscribe(id: int, topic: Body)
    | Unsubscribe(id: int, topic: Body)
    | Send(id: int, handle: nat, now: nat)
    | Recv(id: int, handle: nat, now: nat)

  /** The first socket slot at or after i that is free, or 16. */
  function FreeSocket(n: Net, i: nat): (r: nat)
    requires i <= |n.socks|
    ensures i <= r <= |n.socks|
    ensures r < |n.socks| ==> n.socks[r].None?
    ensures forall k :: i <= k < r ==> n.socks[k].Some?
    decreases |n.socks| - i
  {
    if i == |n.socks| || n.socks[i].None? then i else FreeSocket(n, i + 1)
  }

  function FreePipe(n: Net, i: nat): (r: nat)
    requires i <= |n.pipes|
    ensures i <= r <= |n.pipes|
    ensures r < |n.pipes| ==> n.pipes[r].None?
    ensures forall k :: i <= k < r ==> n.pipes[k].Some?
    decreases |n.pipes| - i
  {
    if i == |n.pipes| || n.pipes[i].None? then i else FreePipe(n, i + 1)
  }

  predicate Touches(pipe: Option<Pipe>, id: nat) {
    pipe.Some? && (pipe.value.src == id || pipe.value.dst == id)
  }

  function CutPipes(pipes: seq<Option<Pipe>>, id: nat): seq<Option<Pipe>> {
    seq(|pipes|, i requires 0 <= i < |pipes| => if Touches(pipes[i], id) then None else pipes[i])
  }

  function CloseSocket(n: Net, id: nat): (m: Net)
    requires Shape(n) && id < MAX_SOCKETS
    ensures Shape(m)
  {
    var k := |n.queues[id]|;
    n.(queues := n.queues[id := []],
       pipes := CutPipes(n.pipes, id),
       socks := n.socks[id := None],
       used := n.used - k,
       small := n.small + 2 * k)
  }

  function IndexOf(topics: seq<Body>, topic: Body, i: nat): (r: nat)
    requires i <= |topics|
    ensures i <= r <= |topics|
    ensures r < |topics| ==> topics[r] == topic
    ensures forall k :: i <= k < r ==> topics[k] != topic
    decreases |topics| - i
  {
    if i == |topics| || topics[i] == topic then i else IndexOf(topics, topic, i + 1)
  }

  /** Removing entry i by moving the last entry into its place. */
  function SwapRemove(topics: seq<Body>, i: nat): seq<Body>
    requires i < |topics|
  {
    topics[i := topics[|topics| - 1]][..|topics| - 1]
  }

  /** Handles that a call returns are new: the pool does not hand out a live message. */
  predicate Legal(n: Net, call: Call) {
    (call.Alloc? || call.Recv?) ==> call.handle !in n.held
  }

  function OnAlloc(n: Net, size: nat, p: nat): (Net, int) {
    if n.used >= MAX_MESSAGES then (n, ENOMEM)
    else if size > BODY_SIZE then (n, EINVAL)
    else if !CanAlloc(n, size) then (n, ENOMEM)
    else (FreshMessage(n, p, size), OK)
  }

  function OnFree(n: Net, p: nat): (Net, int) {
    if p in n.held then (DropHeld(n, p), OK) else (n, EINVAL)
  }

  function OnAppend(n: Net, p: nat, data: Body): (Net, int) {
    if p !in n.held then (n, EINVAL)
    else if |n.held[p].body| + |data| > BODY_SIZE then (n, ENOMEM)
    else
      var m := n.held[p].(body := n.held[p].body + data);
      (n.(held := n.held[p := m], intact := n.intact && |m.body| <= Capacity(m.small)), OK)
  }

  function OnCreate(n: Net, proto: int): (Net, int)
    requires |n.states| == |n.socks|
  {
    var id := FreeSocket(n, 0);
    if id == |n.socks| then (n, ENOMEM)
    else (n.(socks := n.socks[id := Some(proto)], states := n.states[id := Cleared(n.states[id])]), OK)
  }

  function OnClose(n: Net, id: int): (Net, int)
    requires Shape(n)
  {
    if Open(n, id) then (CloseSocket(n, id), OK) else (n, EINVAL)
  }

  function OnConnect(n: Net, src: int, dst: int): (Net, int) {
    if !Open(n, src) || !Open(n, dst) then (n, EINVAL)
    else
      var i := FreePipe(n, 0);
      if i == |n.pipes| then (n, ENOMEM) else (n.(pipes := n.pipes[i := Some(Pipe(src, dst))]), OK)
  }

  function OnSubscribe(n: Net, id: int, topic: Body): (Net, int)
    requires |n.states| == |n.socks|
  {
    if !Speaks(n, id, SUB) || |topic| > MAX_TOPIC then (n, EINVAL)
    else
      var s := n.states[id];
      if |s.topics| >= MAX_SUBS then (n, ENOMEM)
      else (SetState(n, id, s.(topics := s.topics + [topic])), OK)
  }

  function OnUnsubscribe(n: Net, id: int, topic: Body): (Net, int)
    requires |n.states| == |n.socks|
  {
    if !Speaks(n, id, SUB) then (n, EINVAL)
    else
      var s := n.states[id];
      var i := IndexOf(s.topics, topic, 0);
      if i == |s.topics| then (n, ENOENT)
      else (SetState(n, id, s.(topics := SwapRemove(s.topics, i))), OK)
  }

  ghost function OnSend(n: Net, id: int, p: nat, now: nat): (r: (Net, int))
    requires Shape(n)
    ensures r.0.pipes == n.pipes && r.0.socks == n.socks
  {
    if !Open(n, id) || p !in n.held then (n, EINVAL)
    else
      var (m, rv) := Route(n, id, n.held[p].body, now);
      (DropHeld(m, p), rv)
  }

  /** A survey whose deadline has passed is over. */
  function Expired(n: Net, id: nat, now: nat): Net
    requires id < |n.states|
  {
    var s := n.states[id];
    if Speaks(n, id, SURVEYOR) && s.active && now > s.deadline then SetState(n, id, s.(active := false)) else n
  }

  function OnRecv(n: Net, id: int, p: nat, now: nat): (r: (Net, int))
    requires |n.states| == |n.queues| == |n.socks|
    ensures r.0.pipes == n.pipes && r.0.socks == n.socks
  {
    if !Open(n, id) then (n, EINVAL)
    else
      var m := Expired(n, id, now);
      if m.queues[id] == [] then (m, ETIMEDOUT)
      else (m.(queues := m.queues[id := m.queues[id][1..]],
               held := m.held[p := Message(m.queues[id][0], true)]), OK)
  }

  ghost function Apply(n: Net, call: Call): (r: (Net, int))
    requires Shape(n)
    ensures Shape(r.0)
  {
    match call
    case Alloc(size, p) => OnAlloc(n, size, p)
    case Free(p) => OnFree(n, p)
    case Append(p, data) => OnAppend(n, p, data)
    case Create(proto) => OnCreate(n, proto)
    case Close(id) => OnClose(n, id)
    case Connect(src, dst) => OnConnect(n, src, dst)
    case Subscribe(id, topic) => OnSubscribe(n, id, topic)
    case Unsubscribe(id, topic) => OnUnsubscribe(n, id, topic)
    case Send(id, p, now) => OnSend(n, id, p, now)
    case Recv(id, p, now) => OnRecv(n, id, p, now)
  }
}
