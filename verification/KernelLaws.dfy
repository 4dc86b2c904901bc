/** What holds in every reachable state of the kernel: the lineage of capabilities, and the lawful pipes. */
module KernelLaws {
  import opened TaskStates
  import opened Widths
  import opened NngSpec
  import opened KernelSpec

  // ------------------------------------------------------------ capability algebra

  lemma DifferenceMask(a: bv32, b: bv32)
    ensures b & (a & !b) == 0 && a & (a & !b) == a & !b
  {}

  lemma NothingMissing(a: bv32, b: bv32)
    ensures a & !b == 0 ==> a & b == a
  {}

  lemma MeetsAbove(a: bv32, b: bv32, m: bv32)
    requires Within(a, b) && Meets(a, m)
    ensures Meets(b, m)
  {
    assert (a & b) & m == a & (b & m);
  }

  /** The mask test says that whatever is held of any mask in a is also held of it in b. */
  lemma WithinIsInclusion(a: bv32, b: bv32)
    ensures Within(a, b) <==> forall m: bv32 :: Meets(a, m) ==> Meets(b, m)
  {
    if Within(a, b) {
      forall m: bv32 | Meets(a, m) ensures Meets(b, m) { MeetsAbove(a, b, m); }
    }
    if forall m: bv32 :: Meets(a, m) ==> Meets(b, m) {
      DifferenceMask(a, b);
      assert Meets(a, a & !b) ==> Meets(b, a & !b);
      NothingMissing(a, b);
    }
  }

  lemma WithinTransitive(a: bv32, b: bv32, c: bv32)
    requires Within(a, b) && Within(b, c)
    ensures Within(a, c)
  {
    assert a & c == (a & b) & c;
    assert (a & b) & c == a & (b & c);
  }

  lemma NarrowedWithin(a: bv32, b: bv32)
    ensures Within(a & b, b)
  {}

  lemma WithinCross(a: bv32, b: bv32)
    requires Within(a, b) && MayCross(a)
    ensures MayCross(b)
  {
    assert (a & b) & 4 != 0;
  }

  lemma WithinPrivileged(a: bv32, b: bv32)
    requires Within(a, b) && Privileged(a)
    ensures Privileged(b)
  {
    assert (a & b) & 8 != 0;
  }

  lemma RequiredIsPrivileged(caps: bv32)
    requires Within(9, caps)
    ensures Privileged(caps)
  {
    assert 9 & caps == 9;
  }

  lemma OneBit(caps: bv32)
    ensures 1 & caps == 1 <==> caps & 1 != 0
  {}

  lemma TwoBits(caps: bv32)
    ensures 9 & caps == 9 <==> caps & 1 != 0 && caps & 8 != 0
  {}

  // ---------------------------------------------------------------------- the gates

  /** What ipc_send asks of a channel: that it is in use and may send, and for updates, writes and
      deletions that it is privileged, and nothing else. */
  lemma SendGateIff(k: Sys, c: int, op: Word)
    ensures SendGate(k, c, op) == 0 <==>
              && 0 <= c < |k.channels| && k.channels[c].inUse
              && k.channels[c].caps & 1 != 0
              && (op in {0x102, 0x200, 0x201} ==> k.channels[c].caps & 8 != 0)
    ensures SendGate(k, c, op) in {0, -2, -7}
    ensures SendGate(k, c, op) == -2 <==> !(0 <= c < |k.channels| && k.channels[c].inUse)
  {
    if 0 <= c < |k.channels| {
      OneBit(k.channels[c].caps);
      TwoBits(k.channels[c].caps);
    }
  }

  /** A child is refused exactly when the table is full or it would leave its creator's domain
      without the right to. Otherwise it is the next task, with the creator as its parent. */
  lemma ChildIs(k: Sys, domain: Word, caps: bv32, priority: int, stackTop: Word)
    requires Shaped(k)
    ensures var (k', rv) := OnCreateTask(k, domain, caps, priority, stackTop);
            && (rv == 0 <==> |k.tasks| < 1024 && (domain == Me(k).domain || Me(k).caps & 4 != 0))
            && (rv != 0 ==> k' == k && rv == if |k.tasks| >= 1024 then -3 else -4)
            && (rv == 0 ==>
                  && |k'.tasks| == |k.tasks| + 1 && k'.tasks[..|k.tasks|] == k.tasks
                  && k' == k.(tasks := k'.tasks)
                  && var t := k'.tasks[|k.tasks|];
                     && t.id == |k.tasks| + 1 && t.parent == Me(k).id && t.domain == domain
                     && t.priority == priority && t.stackTop == stackTop && t.state == Ready)
  {}

  /** A child holds exactly what it was given and its creator has: whatever lies within both lies
      within it, and nothing else. */
  lemma ChildGets(k: Sys, domain: Word, caps: bv32, priority: int, stackTop: Word, x: bv32)
    requires Shaped(k) && OnCreateTask(k, domain, caps, priority, stackTop).1 == 0
    ensures var child := OnCreateTask(k, domain, caps, priority, stackTop).0.tasks[|k.tasks|];
            Within(x, child.caps) <==> Within(x, caps) && Within(x, Me(k).caps)
  {
    var t := OnCreateTask(k, domain, caps, priority, stackTop).0.tasks[|k.tasks|];
    NewTaskGets(t, Me(k), |k.tasks|, domain, caps, priority, stackTop, x);
  }

  lemma NewTaskGets(
      t: Task, me: Task, slot: nat, domain: Word, caps: bv32, priority: int, stackTop: Word, x: bv32)
    requires slot < MAX_TASKS && t == NewTask(slot, me, domain, caps, priority, stackTop)
    ensures Within(x, t.caps) <==> Within(x, caps) && Within(x, me.caps)
  {
    MeetIsGreatest(x, caps, me.caps);
  }

  lemma MeetIsGreatest(x: bv32, a: bv32, b: bv32)
    ensures Within(x, a & b) <==> Within(x, a) && Within(x, b)
  {
    AndBelow(x, a, b);
    AndAbove(x, a, b);
  }

  lemma AndBelow(x: bv32, a: bv32, b: bv32)
    ensures x & (a & b) == x ==> x & a == x && x & b == x
  {}

  lemma AndAbove(x: bv32, a: bv32, b: bv32)
    ensures x & a == x && x & b == x ==> x & (a & b) == x
  {}

  /** A channel is granted exactly when the caller holds every capability it asks for, its domain
      is the caller's or has an edge from there or the caller may cross, and a channel and a
      socket are free. */
  lemma ChannelGranted(k: Sys, level: Word, domain: Word, caps: bv32, proto: int)
    requires Shaped(k)
    ensures OnCreateChannel(k, level, domain, caps, proto).1 >= 0 <==>
              && (forall m: bv32 :: Meets(caps, m) ==> Meets(Me(k).caps, m))
              && (domain == Me(k).domain || Me(k).caps & 4 != 0
                  || (Me(k).domain < 8 && domain < 8 && (Me(k).domain, domain) in k.edges))
              && (exists c :: 0 <= c < 16 && !k.channels[c].inUse)
              && (exists i :: 0 <= i < 16 && k.net.socks[i].None?)
    ensures var rv, held := OnCreateChannel(k, level, domain, caps, proto).1,
                            forall m: bv32 :: Meets(caps, m) ==> Meets(Me(k).caps, m);
            && (rv == -4 <==> !held)
            && (rv == -5 <==> held && domain != Me(k).domain && Me(k).caps & 4 == 0
                              && !(Me(k).domain < 8 && domain < 8 && (Me(k).domain, domain) in k.edges))
            && (rv == -1 ==> forall c :: 0 <= c < 16 ==> k.channels[c].inUse)
  {
    WithinIsInclusion(caps, Me(k).caps);
  }

  /** What is granted: the lowest free channel over the lowest free socket, as it was asked for and
      owned by the caller; a refusal changes nothing. */
  lemma ChannelIs(k: Sys, level: Word, domain: Word, caps: bv32, proto: int)
    requires Shaped(k)
    ensures var (k', c) := OnCreateChannel(k, level, domain, caps, proto);
            if c < 0 then k' == k && c in {-1, -2, -4, -5}
            else
              && c < 16 && !k.channels[c].inUse && (forall d :: 0 <= d < c ==> k.channels[d].inUse)
              && k'.channels[c].inUse && k'.channels[c].level == level && k'.channels[c].domain == domain
              && k'.channels[c].caps == caps && k'.channels[c].owner == Me(k).id
              && (forall d :: 0 <= d < 16 && d != c ==> k'.channels[d] == k.channels[d])
              && var i := k'.channels[c].sock;
                 && 0 <= i < 16 && k.net.socks[i].None? && (forall j :: 0 <= j < i ==> k.net.socks[j].Some?)
                 && k'.net.socks == k.net.socks[i := Some(proto)]
                 && k'.tasks == k.tasks && k'.edges == k.edges && k'.made == k.made
  {}

  /** Closing is refused for anything but a channel in use with an open socket, and takes nothing
      but that channel and its socket. */
  lemma CloseIs(k: Sys, id: int, d: nat)
    requires Shaped(k) && d < 16
    ensures var (k', rv) := OnCloseChannel(k, id);
            && (rv == 0 <==> 0 <= id < 16 && k.channels[id].inUse
                             && 0 <= k.channels[id].sock < 16 && k.net.socks[k.channels[id].sock].Some?)
            && (rv != 0 ==> k' == k && rv == if !(0 <= id < 16) then -1 else if !k.channels[id].inUse then -2 else -3)
            && (k'.channels[d].inUse <==> k.channels[d].inUse && !(rv == 0 && d == id))
            && (rv == 0 ==> k'.net.socks == k.net.socks[k.channels[id].sock := None])
            && k'.tasks == k.tasks && k'.edges == k.edges
            && (d != id ==> k'.channels[d] == k.channels[d])
  {}

  /** An edge is added exactly when both domains exist and the matrix is not sealed, and it is the
      one that was asked for. */
  lemma EdgeGranted(k: Sys, a: Word, b: Word, x: nat, y: nat)
    ensures var (k', rv) := OnSetEdge(k, a, b);
            && (rv == 0 <==> a < 8 && b < 8 && !k.isSealed)
            && ((x, y) in k'.edges <==> (x, y) in k.edges || (rv == 0 && x == a && y == b))
  {}

  /** Two channels are connected exactly when both are in use, they share a domain or have an edge
      between them or the first may cross, and a pipe is free; nothing else is asked. */
  lemma ConnectionGranted(k: Sys, a: int, b: int)
    requires Lawful(k)
    ensures OnConnectChannels(k, a, b).1 == 0 <==>
              && 0 <= a < 16 && 0 <= b < 16 && k.channels[a].inUse && k.channels[b].inUse
              && (k.channels[a].domain == k.channels[b].domain || k.channels[a].caps & 4 != 0
                  || (k.channels[a].domain < 8 && k.channels[b].domain < 8
                      && (k.channels[a].domain, k.channels[b].domain) in k.edges))
              && (exists i :: 0 <= i < 64 && k.net.pipes[i].None?)
    ensures var rv := OnConnectChannels(k, a, b).1;
            && (rv == -1 <==> !(0 <= a < 16 && 0 <= b < 16 && k.channels[a].inUse && k.channels[b].inUse))
            && (rv == 7 <==> rv != -1 && k.channels[a].domain != k.channels[b].domain && k.channels[a].caps & 4 == 0
                             && !(k.channels[a].domain < 8 && k.channels[b].domain < 8
                                  && (k.channels[a].domain, k.channels[b].domain) in k.edges))
  {
    if InUse(k, a) { assert ChannelOk(k, a); }
    if InUse(k, b) { assert ChannelOk(k, b); }
  }

  // -------------------------------------------------------------------- invariants

  /** Slot i holds task i + 1, created by an earlier task that had all its capabilities, in
      its creator's domain unless the creator could cross. */
  predicate TaskOk(tasks: seq<Task>, i: nat)
    requires i < |tasks|
  {
    && tasks[i].id == i + 1
    && if i == 0 then tasks[i].parent == NO_PARENT
       else
         && 1 <= tasks[i].parent <= i
         && Within(tasks[i].caps, tasks[tasks[i].parent - 1].caps)
         && (tasks[i].domain == tasks[tasks[i].parent - 1].domain || MayCross(tasks[tasks[i].parent - 1].caps))
  }

  ghost predicate Lineage(tasks: seq<Task>) {
    forall i {:trigger TaskOk(tasks, i)} :: 0 <= i < |tasks| ==> TaskOk(tasks, i)
  }

  /** A channel in use has an open socket and an owner that holds its capabilities and may be
      in its domain. */
  predicate ChannelOk(k: Sys, c: nat)
    requires c < |k.channels|
  {
    var ch := k.channels[c];
    ch.inUse ==>
      && Open(k.net, ch.sock) && 1 <= ch.owner <= |k.tasks|
      && Within(ch.caps, k.tasks[ch.owner - 1].caps)
      && (ch.domain == k.tasks[ch.owner - 1].domain || Edge(k, k.tasks[ch.owner - 1].domain, ch.domain)
          || MayCross(k.tasks[ch.owner - 1].caps))
  }

  ghost predicate Channels(k: Sys) {
    && (forall c {:trigger ChannelOk(k, c)} :: 0 <= c < |k.channels| ==> ChannelOk(k, c))
    && (forall c, d :: 0 <= c < d < |k.channels| && k.channels[c].inUse && k.channels[d].inUse ==>
          k.channels[c].sock != k.channels[d].sock)
  }

  /** A pipe made for two channels joins their sockets, and the first may reach the second. */
  predicate PipeOk(k: Sys, i: nat)
    requires i < |k.made| == |k.net.pipes|
  {
    k.made[i].Some? ==>
      var (a, b) := k.made[i].value;
      && InUse(k, a) && InUse(k, b) && Reaches(k, a, b)
      && k.net.pipes[i].Some?
      && k.net.pipes[i].value.src == k.channels[a].sock && k.net.pipes[i].value.dst == k.channels[b].sock
  }

  ghost predicate Lawful(k: Sys) {
    && Shaped(k) && Lineage(k.tasks) && Channels(k)
    && forall i {:trigger PipeOk(k, i)} :: 0 <= i < MAX_PIPES ==> PipeOk(k, i)
  }

  // ------------------------------------------------------------ what the calls touch

  /** Which pipes a call of the messaging layer changes. */
  lemma CallPipes(n: Net, call: Call)
    requires Shape(n)
    ensures var (m, rv) := Apply(n, call);
            m.pipes == if call.Connect? && rv == OK then n.pipes[FreePipe(n, 0) := Some(Pipe(call.src, call.dst))]
                       else if call.Close? && rv == OK then CutPipes(n.pipes, call.id)
                       else n.pipes
  {
    match call
    case Connect(_, _) =>
    case Close(_) =>
    case Send(id, p, now) => assert OnSend(n, id, p, now).0.pipes == n.pipes;
    case _ =>
  }

  /** Which sockets a call of the messaging layer closes. */
  lemma CallSockets(n: Net, call: Call, s: int)
    requires Shape(n) && Open(n, s) && (call.Close? ==> call.id != s)
    ensures Open(Apply(n, call).0, s)
  {}

  // --------------------------------------------------------------------- each step

  lemma NewTaskOk(tasks: seq<Task>, t: Task, p: nat, caps: bv32)
    requires p < |tasks| && TaskOk(tasks, p)
    requires t.id == |tasks| + 1 && t.parent == tasks[p].id && t.caps == caps & tasks[p].caps
    requires t.domain == tasks[p].domain || MayCross(tasks[p].caps)
    ensures TaskOk(tasks + [t], |tasks|)
  {
    NarrowedWithin(caps, tasks[p].caps);
  }

  lemma OldTaskOk(tasks: seq<Task>, t: Task, i: nat)
    requires i < |tasks| && TaskOk(tasks, i)
    ensures TaskOk(tasks + [t], i)
  {}

  lemma CreateTaskKeeps(k: Sys, domain: Word, caps: bv32, priority: int, stackTop: Word)
    requires Lawful(k)
    ensures Lawful(OnCreateTask(k, domain, caps, priority, stackTop).0)
  {
    var (k', rv) := OnCreateTask(k, domain, caps, priority, stackTop);
    if rv == 0 {
      var n := |k.tasks|;
      forall i | 0 <= i < |k'.tasks| ensures TaskOk(k'.tasks, i) {
        if i < n {
          assert TaskOk(k.tasks, i);
          OldTaskOk(k.tasks, k'.tasks[n], i);
        } else {
          assert TaskOk(k.tasks, k.current);
          NewTaskOk(k.tasks, k'.tasks[n], k.current, caps);
        }
      }
      SameChannels(k, k');
    }
  }

  /** Tasks keep their capabilities and domains, and new ones may come. */
  ghost predicate TasksGrow(k: Sys, k': Sys) {
    |k.tasks| <= |k'.tasks| &&
    forall i :: 0 <= i < |k.tasks| ==> k'.tasks[i].caps == k.tasks[i].caps && k'.tasks[i].domain == k.tasks[i].domain
  }

  /** The rest of the system stays lawful while tasks come and edges are added. */
  lemma SameChannels(k: Sys, k': Sys)
    requires Lawful(k) && Shaped(k') && Lineage(k'.tasks)
    requires TasksGrow(k, k') && k.edges <= k'.edges
    requires k'.channels == k.channels && k'.net == k.net && k'.made == k.made
    ensures Lawful(k')
  {
    forall c | 0 <= c < |k'.channels| ensures ChannelOk(k', c) { assert ChannelOk(k, c); }
    forall i | 0 <= i < MAX_PIPES ensures PipeOk(k', i) { assert PipeOk(k, i); }
  }

  lemma SetTaskKeeps(k: Sys, slot: nat, state: TaskState)
    requires Lawful(k) && slot < |k.tasks|
    ensures Lawful(OnSetTask(k, slot, state))
  {
    var k' := OnSetTask(k, slot, state);
    forall i | 0 <= i < |k'.tasks| ensures TaskOk(k'.tasks, i) { assert TaskOk(k.tasks, i); }
    SameChannels(k, k');
  }

  lemma CreateChannelKeeps(k: Sys, level: Word, domain: Word, caps: bv32, proto: int)
    requires Lawful(k)
    ensures Lawful(OnCreateChannel(k, level, domain, caps, proto).0)
  {
    var (k', rv) := OnCreateChannel(k, level, domain, caps, proto);
    if rv >= 0 {
      forall c | 0 <= c < |k'.channels| ensures ChannelOk(k', c) {
        if c == rv { NewChannelOk(k, level, domain, caps, proto); } else { assert ChannelOk(k, c); }
      }
      forall c | 0 <= c < |k.channels| && k.channels[c].inUse ensures k.channels[c].sock != k'.channels[rv].sock {
        assert ChannelOk(k, c);
      }
      forall i | 0 <= i < MAX_PIPES ensures PipeOk(k', i) { assert PipeOk(k, i); }
    }
  }

  lemma NewChannelOk(k: Sys, level: Word, domain: Word, caps: bv32, proto: int)
    requires Lawful(k) && OnCreateChannel(k, level, domain, caps, proto).1 >= 0
    ensures var (k', c) := OnCreateChannel(k, level, domain, caps, proto); c < |k'.channels| && ChannelOk(k', c)
  {
    assert TaskOk(k.tasks, k.current);
  }

  lemma CloseChannelKeeps(k: Sys, id: int)
    requires Lawful(k)
    ensures Lawful(OnCloseChannel(k, id).0)
  {
    var (k', rv) := OnCloseChannel(k, id);
    if rv == 0 {
      forall c | 0 <= c < |k'.channels| ensures ChannelOk(k', c) { assert ChannelOk(k, c); }
      forall i | 0 <= i < MAX_PIPES ensures PipeOk(k', i) { assert PipeOk(k, i); }
    }
  }

  lemma ConnectKeeps(k: Sys, src: int, dst: int)
    requires Lawful(k)
    ensures Lawful(OnConnectChannels(k, src, dst).0)
  {
    var (k', rv) := OnConnectChannels(k, src, dst);
    if rv == 0 {
      forall c | 0 <= c < |k'.channels| ensures ChannelOk(k', c) { assert ChannelOk(k, c); }
      forall i | 0 <= i < MAX_PIPES ensures PipeOk(k', i) { assert PipeOk(k, i); }
    }
  }

  lemma SetEdgeKeeps(k: Sys, a: Word, b: Word)
    requires Lawful(k)
    ensures Lawful(OnSetEdge(k, a, b).0)
  {
    SameChannels(k, OnSetEdge(k, a, b).0);
  }

  lemma NetCallKeeps(k: Sys, call: Call)
    requires Lawful(k) && Allowed(k, NetCall(call))
    ensures Lawful(OnNetCall(k, call).0)
  {
    var k' := OnNetCall(k, call).0;
    CallPipes(k.net, call);
    forall c | 0 <= c < |k'.channels| ensures ChannelOk(k', c) {
      assert ChannelOk(k, c);
      if k.channels[c].inUse { CallSockets(k.net, call, k.channels[c].sock); }
    }
    forall i | 0 <= i < MAX_PIPES ensures PipeOk(k', i) { assert PipeOk(k, i); }
  }

  /** Every operation keeps the laws. */
  lemma StepKeeps(k: Sys, op: Op)
    requires Lawful(k) && Allowed(k, op)
    ensures Lawful(Do(k, op).0)
  {
    match op
    case CreateTask(domain, caps, priority, stackTop) => CreateTaskKeeps(k, domain, caps, priority, stackTop);
    case SetTask(slot, state) => SetTaskKeeps(k, slot, state);
    case Exit => SetTaskKeeps(k, k.current, Terminated);
    case CreateChannel(level, domain, caps, proto) => CreateChannelKeeps(k, level, domain, caps, proto);
    case CloseChannel(id) => CloseChannelKeeps(k, id);
    case ConnectChannels(src, dst) => ConnectKeeps(k, src, dst);
    case SetEdge(a, b) => SetEdgeKeeps(k, a, b);
    case NetCall(call) => NetCallKeeps(k, call);
    case _ => SameChannels(k, Do(k, op).0);
  }

  // -------------------------------------------------------------------- whole runs

  ghost predicate StepAt(states: seq<Sys>, ops: seq<Op>, i: nat)
    requires i < |ops| < |states|
  {
    Shaped(states[i]) && Allowed(states[i], ops[i]) && states[i + 1] == Do(states[i], ops[i]).0
  }

  /** A run from boot. */
  ghost predicate IsRun(states: seq<Sys>, ops: seq<Op>) {
    && |states| == |ops| + 1 && Booted(states[0])
    && forall i {:trigger StepAt(states, ops, i)} :: 0 <= i < |ops| ==> StepAt(states, ops, i)
  }

  lemma BootLawful(k: Sys)
    requires Booted(k)
    ensures Lawful(k)
  {}

  /** In every reachable state the lineage holds, every channel is within its owner's rights,
      and every pipe made for two channels is lawful. */
  lemma {:induction false} RunLawful(states: seq<Sys>, ops: seq<Op>, i: nat)
    requires IsRun(states, ops) && i <= |ops|
    ensures Lawful(states[i])
  {
    if i == 0 {
      BootLawful(states[0]);
    } else {
      RunLawful(states, ops, i - 1);
      assert StepAt(states, ops, i - 1);
      StepKeeps(states[i - 1], ops[i - 1]);
    }
  }

  /** A sealed matrix stays as it is, and edges are never taken away. */
  lemma {:induction false} SealedForGood(states: seq<Sys>, ops: seq<Op>, i: nat, j: nat)
    requires IsRun(states, ops) && i <= j <= |ops|
    ensures states[i].edges <= states[j].edges
    ensures states[i].isSealed ==> states[j].isSealed && states[j].edges == states[i].edges
    ensures (exists l :: i <= l < j && ops[l].Seal?) ==> states[j].isSealed
  {
    if i < j {
      SealedForGood(states, ops, i, j - 1);
      assert StepAt(states, ops, j - 1);
      EdgesStep(states[j - 1], ops[j - 1]);
    }
  }

  lemma EdgesStep(k: Sys, op: Op)
    requires Shaped(k) && Allowed(k, op)
    ensures var k' := Do(k, op).0;
            k.edges <= k'.edges && (k.isSealed || op.Seal? ==> k'.isSealed && k'.edges == k.edges)
  {}

  // --------------------------------------------------------------------- ancestors

  /** a is task i or one of its ancestors (both by slot). */
  predicate Ancestor(tasks: seq<Task>, a: nat, i: nat)
    requires i < |tasks|
    decreases i
  {
    a == i || (1 <= tasks[i].parent <= i && Ancestor(tasks, a, tasks[i].parent - 1))
  }

  /** How many creations separate a task from the root. */
  ghost function Depth(tasks: seq<Task>, i: nat): nat
    requires i < |tasks|
    decreases i
  {
    if 1 <= tasks[i].parent <= i then 1 + Depth(tasks, tasks[i].parent - 1) else 0
  }

  /** The lineage is a tree with slot 0 at its root: parents come before children, and every
      task descends from the root. */
  lemma {:induction false} RootedTree(tasks: seq<Task>, i: nat)
    requires Lineage(tasks) && i < |tasks|
    ensures Ancestor(tasks, 0, i)
    ensures forall a: nat :: Ancestor(tasks, a, i) ==> a <= i
    ensures Depth(tasks, i) <= i && (Depth(tasks, i) == 0 <==> i == 0)
    decreases i
  {
    assert TaskOk(tasks, i);
    if i > 0 { RootedTree(tasks, tasks[i].parent - 1); }
  }

  /** No task holds a capability that one of its ancestors lacks. */
  lemma {:induction false} CapsNarrow(tasks: seq<Task>, a: nat, i: nat)
    requires Lineage(tasks) && i < |tasks| && Ancestor(tasks, a, i)
    ensures a < |tasks| && Within(tasks[i].caps, tasks[a].caps)
    decreases i
  {
    if a != i {
      assert TaskOk(tasks, i);
      var p := tasks[i].parent - 1;
      CapsNarrow(tasks, a, p);
      WithinTransitive(tasks[i].caps, tasks[p].caps, tasks[a].caps);
    }
  }

  /** The descendants of a task that cannot cross domains stay in its domain. */
  lemma {:induction false} Confined(tasks: seq<Task>, a: nat, i: nat)
    requires Lineage(tasks) && i < |tasks| && Ancestor(tasks, a, i)
    ensures a < |tasks| && (!MayCross(tasks[a].caps) ==> tasks[i].domain == tasks[a].domain)
    decreases i
  {
    if a != i {
      assert TaskOk(tasks, i);
      var p := tasks[i].parent - 1;
      Confined(tasks, a, p);
      CapsNarrow(tasks, a, p);
      if MayCross(tasks[p].caps) { WithinCross(tasks[p].caps, tasks[a].caps); }
    }
  }

  /** A privileged operation passes the gate of ipc_send only if the channel's owner and all
      the owner's ancestors are privileged. */
  lemma PrivilegedSend(states: seq<Sys>, ops: seq<Op>, i: nat, c: nat, op: Word)
    requires IsRun(states, ops) && i <= |ops|
    requires op in {0x102, 0x200, 0x201} && SendGate(states[i], c, op) == 0
    ensures var k := states[i];
            && 1 <= k.channels[c].owner <= |k.tasks|
            && forall a: nat :: Ancestor(k.tasks, a, k.channels[c].owner - 1) ==>
                 a < |k.tasks| && k.tasks[a].caps & 8 != 0
  {
    var k := states[i];
    RunLawful(states, ops, i);
    assert ChannelOk(k, c);
    var owner := k.channels[c].owner - 1;
    forall a: nat | Ancestor(k.tasks, a, owner) ensures a < |k.tasks| && Privileged(k.tasks[a].caps) {
      CapsNarrow(k.tasks, a, owner);
      HeldAbove(k.channels[c].caps, k.tasks[owner].caps, k.tasks[a].caps);
    }
  }

  lemma HeldAbove(channel: bv32, owner: bv32, ancestor: bv32)
    requires Within(9, channel) && Within(channel, owner) && Within(owner, ancestor)
    ensures Privileged(ancestor)
  {
    WithinTransitive(channel, owner, ancestor);
    RequiredIsPrivileged(channel);
    WithinPrivileged(channel, ancestor);
  }

  /** Every pipe made by connecting channels, in every reachable state: its ends are the sockets
      of two channels in use, in one domain, or with an edge between, or the source may cross. */
  lemma PipesLawful(states: seq<Sys>, ops: seq<Op>, i: nat, p: nat)
    requires IsRun(states, ops) && i <= |ops| && p < MAX_PIPES
    requires |states[i].made| == MAX_PIPES && states[i].made[p].Some?
    ensures var k := states[i];
            var (a, b) := k.made[p].value;
            && InUse(k, a) && InUse(k, b)
            && |k.net.pipes| == MAX_PIPES && k.net.pipes[p].Some?
            && k.net.pipes[p].value.src == k.channels[a].sock && k.net.pipes[p].value.dst == k.channels[b].sock
            && Open(k.net, k.channels[a].sock) && Open(k.net, k.channels[b].sock)
            && (|| k.channels[a].domain == k.channels[b].domain
                || (k.channels[a].domain, k.channels[b].domain) in k.edges
                || MayCross(k.channels[a].caps))
  {
    RunLawful(states, ops, i);
    assert PipeOk(states[i], p);
    var (a, b) := states[i].made[p].value;
    assert ChannelOk(states[i], a) && ChannelOk(states[i], b);
  }

  /** Step j connects channel a to channel b through pipe p. */
  ghost predicate Joins(states: seq<Sys>, ops: seq<Op>, j: nat, a: nat, b: nat, p: nat)
    requires j < |ops| < |states|
  {
    && ops[j] == ConnectChannels(a, b) && p < 64
    && p < |states[j].net.pipes| && states[j].net.pipes[p].None?
    && p < |states[j + 1].net.pipes| && states[j + 1].net.pipes[p].Some?
  }

  lemma JoinIsMade(k: Sys, a: nat, b: nat, p: nat)
    requires Shaped(k) && p < 64 && k.net.pipes[p].None? && OnConnectChannels(k, a, b).0.net.pipes[p].Some?
    ensures OnConnectChannels(k, a, b).0.made[p] == Some((a, b))
  {}

  /** A pipe that is not cut stays the one it was made as. */
  lemma MadeStays(k: Sys, op: Op, p: nat)
    requires Shaped(k) && Allowed(k, op) && p < 64 && k.net.pipes[p].Some? && Do(k, op).0.net.pipes[p].Some?
    ensures Do(k, op).0.made[p] == k.made[p]
  {
    match op
    case NetCall(call) => CallPipes(k.net, call);
    case _ =>
  }

  lemma {:induction false} JoinedStays(states: seq<Sys>, ops: seq<Op>, j: nat, i: nat, a: nat, b: nat, p: nat)
    requires IsRun(states, ops) && j < i <= |ops| && Joins(states, ops, j, a, b, p)
    requires forall l :: j < l <= i ==> p < |states[l].net.pipes| && states[l].net.pipes[p].Some?
    ensures Shaped(states[i]) && states[i].made[p] == Some((a, b))
    decreases i
  {
    RunLawful(states, ops, i);
    RunLawful(states, ops, i - 1);
    assert StepAt(states, ops, i - 1);
    if i == j + 1 {
      JoinIsMade(states[j], a, b, p);
    } else {
      JoinedStays(states, ops, j, i - 1, a, b, p);
      MadeStays(states[i - 1], ops[i - 1], p);
    }
  }

  /** As long as the pipe of a connection is not cut, both channels are in use, it joins their
      sockets, and they share a domain, have an edge between them, or the first may cross. */
  lemma ConnectionStaysLawful(states: seq<Sys>, ops: seq<Op>, j: nat, i: nat, a: nat, b: nat, p: nat)
    requires IsRun(states, ops) && j < i <= |ops| && Joins(states, ops, j, a, b, p)
    requires forall l :: j < l <= i ==> p < |states[l].net.pipes| && states[l].net.pipes[p].Some?
    ensures var k := states[i];
            && |k.channels| == 16 && a < 16 && b < 16 && k.channels[a].inUse && k.channels[b].inUse
            && k.net.pipes[p].value.src == k.channels[a].sock && k.net.pipes[p].value.dst == k.channels[b].sock
            && (|| k.channels[a].domain == k.channels[b].domain
                || (k.channels[a].domain, k.channels[b].domain) in k.edges
                || k.channels[a].caps & 4 != 0)
  {
    JoinedStays(states, ops, j, i, a, b, p);
    PipesLawful(states, ops, i, p);
  }

  /** Closing a channel in use always succeeds, and leaves no pipe of any kind at its socket. */
  lemma CloseCuts(states: seq<Sys>, ops: seq<Op>, i: nat, c: nat)
    requires IsRun(states, ops) && i <= |ops| && InUse(states[i], c)
    ensures var k := states[i];
            var (k', rv) := (Lawfully(states, ops, i); OnCloseChannel(k, c));
            rv == 0 && !InUse(k', c) && k.channels[c].sock >= 0
            && forall p :: 0 <= p < |k'.net.pipes| ==> !Touches(k'.net.pipes[p], k.channels[c].sock)
  {
    RunLawful(states, ops, i);
    assert ChannelOk(states[i], c);
  }

  lemma Lawfully(states: seq<Sys>, ops: seq<Op>, i: nat)
    requires IsRun(states, ops) && i <= |ops|
    ensures Shaped(states[i])
  {
    RunLawful(states, ops, i);
  }
}
