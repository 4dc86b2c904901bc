/** What the scheduler knows about a task. */
module TaskStates {
  datatype TaskState = Ready | Running | Blocked | Terminated
}

/** Tasks, channels and the domain graph as one state machine over the messaging layer. */
module KernelSpec {
  import opened TaskStates
  import opened Widths
  import opened Domains
  import opened NngSpec

  const MAX_TASKS: nat := 1024
  const MAX_CHANNELS: nat := 16
  const MAX_RUNNABLE: nat := 8
  const STACK_SIZE: nat := 16384
  const NO_PARENT: Word := 0xFFFFFFFF
  const EACCESS := 7

  datatype Task = Task(
    id: Word, parent: Word, caps: bv32, domain: Word, priority: int, stackTop: Word, state: TaskState)

  datatype Channel = Channel(inUse: bool, sock: int, level: Word, domain: Word, caps: bv32, owner: Word)

  datatype Sys = Sys(
    tasks: seq<Task>,
    current: nat,                         // the slot of the running task
    channels: seq<Channel>,
    edges: set<(nat, nat)>,               // the domain transition matrix
    isSealed: bool,
    net: Net,
    made: seq<Option<(nat, nat)>>)        // for a pipe made by connecting two channels: which two

  // ----------------------------------------------------------------- capabilities

  predicate MayCross(caps: bv32) { caps & 4 != 0 }
  predicate Privileged(caps: bv32) { caps & 8 != 0 }

  /** Some capability of the mask is held. */
  predicate Meets(caps: bv32, mask: bv32) { caps & mask != 0 }

  /** Every capability in a is also in b. */
  predicate Within(a: bv32, b: bv32) { a & b == a }

  predicate IsPrivilegedOp(op: Word) { op == 0x102 || op == 0x200 || op == 0x201 }

  function RequiredCaps(op: Word): bv32 { if IsPrivilegedOp(op) then 9 else 1 }

  // ------------------------------------------------------------------------ state

  ghost predicate Shaped(k: Sys) {
    && 0 < |k.tasks| <= MAX_TASKS && k.current < |k.tasks|
    && |k.channels| == MAX_CHANNELS && Shape(k.net) && |k.made| == MAX_PIPES
  }

  function Me(k: Sys): Task
    requires k.current < |k.tasks|
  {
    k.tasks[k.current]
  }

  predicate Edge(k: Sys, a: nat, b: nat) { a < MAX_DOMAINS && b < MAX_DOMAINS && (a, b) in k.edges }

  predicate InUse(k: Sys, c: int) { 0 <= c < |k.channels| && k.channels[c].inUse }

  /** One channel may reach another. */
  predicate Reaches(k: Sys, a: nat, b: nat)
    requires InUse(k, a) && InUse(k, b)
  {
    var src, dst := k.channels[a], k.channels[b];
    src.domain == dst.domain || Edge(k, src.domain, dst.domain) || MayCross(src.caps)
  }

  // ------------------------------------------------------------------- operations

  datatype Op =
    | CreateTask(domain: Word, caps: bv32, priority: int, stackTop: Word)
    | Switch(slot: nat)
    | SetTask(slot: nat, state: TaskState)
    | Exit
    | CreateChannel(level: Word, chanDomain: Word, chanCaps: bv32, proto: int)
    | CloseChannel(id: int)
    | ConnectChannels(src: int, dst: int)
    | SetEdge(a: Word, b: Word)
    | Seal
    | NetCall(call: Call)

  /** The child gets what it asks for of its creator's capabilities, and no more. */
  function NewTask(slot: nat, creator: Task, domain: Word, caps: bv32, priority: int, stackTop: Word): Task
    requires slot < MAX_TASKS
  {
    Task(slot + 1, creator.id, caps & creator.caps, domain, priority, stackTop, Ready)
  }

  function OnCreateTask(k: Sys, domain: Word, caps: bv32, priority: int, stackTop: Word): (Sys, int)
    requires k.current < |k.tasks|
  {
    var me := Me(k);
    if |k.tasks| >= MAX_TASKS then (k, -3)
    else if domain != me.domain && !MayCross(me.caps) then (k, -4)
    else (k.(tasks := k.tasks + [NewTask(|k.tasks|, me, domain, caps, priority, stackTop)]), 0)
  }

  function OnSetTask(k: Sys, slot: nat, state: TaskState): Sys
    requires slot < |k.tasks|
  {
    k.(tasks := k.tasks[slot := k.tasks[slot].(state := state)])
  }

  /** The first channel slot at or after i that is free, or 16. */
  function FreeChannel(k: Sys, i: nat): (r: nat)
    requires i <= |k.channels|
    ensures i <= r <= |k.channels|
    ensures r < |k.channels| ==> !k.channels[r].inUse
    ensures forall j :: i <= j < r ==> k.channels[j].inUse
    decreases |k.channels| - i
  {
    if i == |k.channels| || !k.channels[i].inUse then i else FreeChannel(k, i + 1)
  }

  /** The caller may have a channel with these capabilities in this domain. */
  function CreateGate(k: Sys, domain: Word, caps: bv32): int
    requires k.current < |k.tasks|
  {
    var me := Me(k);
    if !Within(caps, me.caps) then -4
    else if domain != me.domain && !Edge(k, me.domain, domain) && !MayCross(me.caps) then -5
    else 0
  }

  function OnCreateChannel(k: Sys, level: Word, domain: Word, caps: bv32, proto: int): (Sys, int)
    requires k.current < |k.tasks| && |k.net.states| == |k.net.socks|
  {
    var gate, c, s := CreateGate(k, domain, caps), FreeChannel(k, 0), FreeSocket(k.net, 0);
    if gate != 0 then (k, gate)
    else if c == |k.channels| then (k, -1)
    else if s == |k.net.socks| then (k, -2)
    else (k.(net := OnCreate(k.net, proto).0,
             channels := k.channels[c := Channel(true, s, level, domain, caps, Me(k).id)]), c)
  }

  /** A pipe that is cut is nobody's any more. */
  function CutMade(made: seq<Option<(nat, nat)>>, pipes: seq<Option<Pipe>>): seq<Option<(nat, nat)>>
    requires |pipes| == |made|
  {
    seq(|made|, i requires 0 <= i < |made| => if pipes[i].None? then None else made[i])
  }

  ghost function OnCloseChannel(k: Sys, id: int): (Sys, int)
    requires Shape(k.net) && |k.made| == MAX_PIPES
  {
    if !(0 <= id < |k.channels|) then (k, -1)
    else if !k.channels[id].inUse then (k, -2)
    else if !Open(k.net, k.channels[id].sock) then (k, -3)
    else
      var net := CloseSocket(k.net, k.channels[id].sock);
      (k.(net := net, made := CutMade(k.made, net.pipes),
          channels := k.channels[id := k.channels[id].(inUse := false, sock := -1)]), 0)
  }

  function OnConnectChannels(k: Sys, src: int, dst: int): (Sys, int)
    requires |k.made| == |k.net.pipes|
  {
    if !InUse(k, src) || !InUse(k, dst) then (k, -1)
    else if !Reaches(k, src, dst) then (k, EACCESS)
    else
      var i := FreePipe(k.net, 0);
      var (net, rv) := OnConnect(k.net, k.channels[src].sock, k.channels[dst].sock);
      if rv != OK then (k, rv)
      else (k.(net := net, made := if i < |k.made| then k.made[i := Some((src, dst))] else k.made), 0)
  }

  function OnSetEdge(k: Sys, a: Word, b: Word): (Sys, int) {
    if a >= MAX_DOMAINS || b >= MAX_DOMAINS then (k, -1)
    else if k.isSealed then (k, -2)
    else (k.(edges := k.edges + {(a, b)}), 0)
  }

  /** Other users of the messaging layer: a pipe they make is not a channel connection. */
  ghost function OnNetCall(k: Sys, call: Call): (Sys, int)
    requires Shape(k.net) && |k.made| == MAX_PIPES
  {
    var (net, rv) := Apply(k.net, call);
    var i := FreePipe(k.net, 0);
    var made := if call.Connect? && rv == OK && i < MAX_PIPES then k.made[i := None] else k.made;
    (k.(net := net, made := CutMade(made, net.pipes)), rv)
  }

  /** The gate of ipc_send. */
  function SendGate(k: Sys, c: int, op: Word): int {
    if !InUse(k, c) then -2
    else if !Within(RequiredCaps(op), k.channels[c].caps) then -7
    else 0
  }

  /** Only resident tasks run, nobody revives a task, and nobody else closes a channel's socket. */
  ghost predicate Allowed(k: Sys, op: Op) {
    match op
    case Switch(slot) => slot < |k.tasks|
    case SetTask(slot, _) => slot < |k.tasks| && k.tasks[slot].state != Terminated
    case NetCall(call) =>
      && Legal(k.net, call)
      && (call.Close? ==> forall c :: 0 <= c < |k.channels| && k.channels[c].inUse ==> k.channels[c].sock != call.id)
    case _ => true
  }

  ghost function Do(k: Sys, op: Op): (r: (Sys, int))
    requires Shaped(k) && Allowed(k, op)
    ensures Shaped(r.0)
  {
    match op
    case CreateTask(domain, caps, priority, stackTop) => OnCreateTask(k, domain, caps, priority, stackTop)
    case Switch(slot) => (k.(current := slot), 0)
    case SetTask(slot, state) => (OnSetTask(k, slot, state), 0)
    case Exit => (OnSetTask(k, k.current, Terminated), 0)
    case CreateChannel(level, domain, caps, proto) => OnCreateChannel(k, level, domain, caps, proto)
    case CloseChannel(id) => OnCloseChannel(k, id)
    case ConnectChannels(src, dst) => OnConnectChannels(k, src, dst)
    case SetEdge(a, b) => OnSetEdge(k, a, b)
    case Seal => (k.(isSealed := true), 0)
    case NetCall(call) => OnNetCall(k, call)
  }

  /** After boot: the root task alone, no channels, the identity matrix. */
  ghost predicate Booted(k: Sys) {
    && Shaped(k) && k.current == 0 && !k.isSealed
    && |k.tasks| == 1 && k.tasks[0].id == 1 && k.tasks[0].parent == NO_PARENT
    && k.tasks[0].caps == 0xF && k.tasks[0].domain == 0 && k.tasks[0].state == Running
    && (forall c :: 0 <= c < MAX_CHANNELS ==> !k.channels[c].inUse)
    && k.edges == Identity()
    && (forall i :: 0 <= i < MAX_SOCKETS ==> k.net.socks[i].None?)
    && (forall i :: 0 <= i < MAX_PIPES ==> k.net.pipes[i].None? && k.made[i].None?)
  }
}
