/** What the replayed graph says of the past: exactly what the kernel has done. */
module AuditHistory {
  import opened TaskStates
  import opened Widths
  import opened Records
  import opened Replay
  import opened KernelSpec
  import opened KernelLaws
  import opened Audit
  import N = NngSpec

  // -------------------------------------------------------------------- one record

  /** A task is alive in the graph until it exits. */
  lemma AliveStep(g: Graph, k: Sys, op: Op, code: Word, now: Long, i: nat)
    requires Shaped(k) && Allowed(k, op) && Me(k).id == k.current + 1 && Agrees(g, k)
    requires i < |Do(k, op).0.tasks|
    ensures var g' := ReadAny(g, Written(k, op, code, now));
            && |k.tasks| <= |Do(k, op).0.tasks| && i + 1 in g'.tasks
            && g'.tasks[i + 1].alive ==
               if i < |k.tasks| then g.tasks[i + 1].alive && !(op.Exit? && k.current == i) else true
  {
    match op
    case CreateTask(domain, caps, priority, stackTop) => AliveCreate(g, k, domain, caps, priority, stackTop, now, i);
    case Exit => AliveExit(g, k, code, now, i);
    case _ => OthersKeepTasks(g, k, op, code, now);
  }

  lemma OthersKeepTasks(g: Graph, k: Sys, op: Op, code: Word, now: Long)
    requires Shaped(k) && Allowed(k, op) && !op.CreateTask? && !op.Exit?
    ensures ReadAny(g, Written(k, op, code, now)).tasks == g.tasks
    ensures |Do(k, op).0.tasks| == |k.tasks|
  {}

  lemma AliveExit(g: Graph, k: Sys, code: Word, now: Long, i: nat)
    requires Shaped(k) && Me(k).id == k.current + 1 && Agrees(g, k) && i < |k.tasks|
    ensures var g' := Read(g, TaskExitRecord(Me(k).id, code, now));
            i + 1 in g.tasks && i + 1 in g'.tasks && g'.tasks[i + 1].alive == (g.tasks[i + 1].alive && k.current != i)
  {
    TaskInGraph(g, k, i);
    TaskInGraph(g, k, k.current);
  }

  lemma AliveCreate(
      g: Graph, k: Sys, domain: Word, caps: bv32, priority: int, stackTop: Word, now: Long, i: nat)
    requires Shaped(k) && Agrees(g, k)
    requires i < |OnCreateTask(k, domain, caps, priority, stackTop).0.tasks|
    ensures var (k', rv) := OnCreateTask(k, domain, caps, priority, stackTop);
            var g' := if rv == 0 then Read(g, TaskCreateRecord(k'.tasks[|k.tasks|], now)) else g;
            && |k'.tasks| == |k.tasks| + (if rv == 0 then 1 else 0) && i + 1 in g'.tasks
            && (i < |k.tasks| ==> i + 1 in g.tasks)
            && g'.tasks[i + 1].alive == if i < |k.tasks| then g.tasks[i + 1].alive else true
  {
    if i < |k.tasks| { TaskInGraph(g, k, i); }
  }

  lemma ConnectStep(g: Graph, k: Sys, op: Op, code: Word, now: Long)
    requires Shaped(k) && Allowed(k, op)
    ensures ReadAny(g, Written(k, op, code, now)).connects
            == g.connects + if op.ConnectChannels? && Do(k, op).1 == 0 then {(op.src, op.dst)} else {}
  {
    if op.ConnectChannels? && Do(k, op).1 == 0 { assert op.src % 256 == op.src; }
  }

  lemma EdgeStep(g: Graph, k: Sys, op: Op, code: Word, now: Long)
    requires Shaped(k) && Allowed(k, op)
    ensures ReadAny(g, Written(k, op, code, now)).domains
            == g.domains + if op.SetEdge? && Do(k, op).1 == 0 then {(op.a, op.b)} else {}
  {}

  lemma ChannelStep(g: Graph, k: Sys, op: Op, code: Word, now: Long)
    requires Shaped(k) && Allowed(k, op)
    ensures ReadAny(g, Written(k, op, code, now)).channels
            == if op.CreateChannel? && Do(k, op).1 >= 0
               then g.channels[Do(k, op).1 := GraphChannel(Me(k).id, op.chanCaps as nat, op.chanDomain)]
               else g.channels
  {
    if op.CreateChannel? && Do(k, op).1 >= 0 {
      var (k', c) := Do(k, op);
      WordsAt([k'.channels[c].domain, k'.channels[c].level, 0, 0]);
      assert c % 256 == c;
    }
  }

  lemma OtherStep(g: Graph, r: Record)
    requires NotStructural(r)
    ensures Read(g, r) == g
  {}

  // --------------------------------------------------------------------- whole runs

  /** Act j is the exit of the task in slot i. */
  ghost predicate ExitsAt(states: seq<Sys>, acts: seq<Act>, i: nat, j: nat)
    requires j < |acts| < |states|
  {
    acts[j].Kernel? && acts[j].op.Exit? && states[j].current == i
  }

  /** Act j connects channel a to channel b. */
  ghost predicate ConnectsAt(states: seq<Sys>, acts: seq<Act>, a: nat, b: nat, j: nat)
    requires j < |acts| < |states|
  {
    acts[j].Kernel? && acts[j].op == ConnectChannels(a, b) && OnConnectOk(states[j], a, b)
  }

  predicate OnConnectOk(k: Sys, a: nat, b: nat) { |k.made| == |k.net.pipes| && OnConnectChannels(k, a, b).1 == 0 }

  /** Act j adds the edge from x to y. */
  ghost predicate EdgeAt(states: seq<Sys>, acts: seq<Act>, x: nat, y: nat, j: nat)
    requires j < |acts| < |states|
  {
    acts[j].Kernel? && acts[j].op.SetEdge? && acts[j].op.a == x && acts[j].op.b == y && OnSetEdge(states[j], x, y).1 == 0
  }

  /** Act j creates channel c: it is in use afterwards and was not before. */
  ghost predicate CreatesAt(states: seq<Sys>, acts: seq<Act>, c: nat, j: nat)
    requires j < |acts| < |states|
  {
    acts[j].Kernel? && acts[j].op.CreateChannel? && !InUse(states[j], c) && InUse(states[j + 1], c)
  }

  /** A creation returns the one channel that it puts into use. */
  lemma CreationIs(k: Sys, op: Op, c: nat)
    requires Shaped(k) && Allowed(k, op) && op.CreateChannel?
    ensures Do(k, op).1 == c <==> !InUse(k, c) && InUse(Do(k, op).0, c)
  {}

  /** One step of the stream, seen by the reader. */
  lemma StreamStep(states: seq<Sys>, wires: seq<seq<Byte>>, acts: seq<Act>, start: Long, j: nat)
    requires IsAudited(states, wires, acts, start) && j < |acts|
    ensures ActAt(states, wires, acts, j) && Lawful(states[j]) && Me(states[j]).id == states[j].current + 1
    ensures Agrees(Replayed(wires[j]), states[j])
    ensures Replayed(wires[j + 1]) ==
            match acts[j]
            case Kernel(op, code, now) => ReadAny(Replayed(wires[j]), Written(states[j], op, code, now))
            case Other(r) => Replayed(wires[j])
  {
    ReplayAgrees(states, wires, acts, start, j);
    assert ActAt(states, wires, acts, j);
    assert TaskOk(states[j].tasks, states[j].current);
    match acts[j]
    case Kernel(op, code, now) => ReplayExtend(wires[j], Written(states[j], op, code, now));
    case Other(r) =>
      ReplayAppend(wires[j], r);
      OtherStep(Replayed(wires[j]), r);
  }

  // ------------------------------------------------------------ what a stream adds up to

  /** A fact that comes about at an event and never goes away holds exactly if there was one. */
  lemma {:induction false} Accumulates(fact: nat -> bool, event: nat -> bool, n: nat)
    requires !fact(0) && forall j: nat :: j < n ==> (fact(j + 1) <==> fact(j) || event(j))
    ensures fact(n) <==> exists j: nat :: j < n && event(j)
  {
    if n > 0 {
      Accumulates(fact, event, n - 1);
      assert fact(n) <==> fact(n - 1) || event(n - 1);
    }
  }

  /** A value that events set is the one the latest event set. */
  lemma {:induction false} LatestCounts<T>(value: nat -> T, event: nat -> bool, given: nat -> T, n: nat, j: nat)
    requires j < n && event(j) && forall l: nat :: j < l < n ==> !event(l)
    requires forall l: nat :: l < n ==> value(l + 1) == if event(l) then given(l) else value(l)
    ensures value(n) == given(j)
  {
    if j < n - 1 { LatestCounts(value, event, given, n - 1, j); }
    assert value((n - 1) + 1) == value(n);
  }

  /** Task i is in the graph after j acts, and dead. */
  ghost predicate Dead(states: seq<Sys>, wires: seq<seq<Byte>>, i: nat, j: nat) {
    && j < |states| && j < |wires| && i < |states[j].tasks|
    && i + 1 in Replayed(wires[j]).tasks && !Replayed(wires[j]).tasks[i + 1].alive
  }

  lemma DeadStep(states: seq<Sys>, wires: seq<seq<Byte>>, acts: seq<Act>, start: Long, j: nat, i: nat)
    requires IsAudited(states, wires, acts, start) && j < |acts|
    ensures Dead(states, wires, i, j + 1) <==> Dead(states, wires, i, j) || ExitsAt(states, acts, i, j)
  {
    StreamStep(states, wires, acts, start, j);
    match acts[j]
    case Kernel(op, code, now) => DeadKernelStep(Replayed(wires[j]), states[j], op, code, now, i);
    case Other(r) =>
  }

  ghost predicate DeadIn(g: Graph, k: Sys, i: nat) { i < |k.tasks| && i + 1 in g.tasks && !g.tasks[i + 1].alive }

  lemma DeadKernelStep(g: Graph, k: Sys, op: Op, code: Word, now: Long, i: nat)
    requires Shaped(k) && Allowed(k, op) && Me(k).id == k.current + 1 && Agrees(g, k)
    ensures DeadIn(ReadAny(g, Written(k, op, code, now)), Do(k, op).0, i)
            <==> DeadIn(g, k, i) || (op.Exit? && k.current == i)
  {
    TasksStay(k, op);
    if i < |Do(k, op).0.tasks| { AliveStep(g, k, op, code, now, i); }
  }

  lemma TasksStay(k: Sys, op: Op)
    requires Shaped(k) && Allowed(k, op)
    ensures |k.tasks| <= |Do(k, op).0.tasks|
  {}

  lemma FirstGraph(k: Sys, start: Long)
    requires Booted(k)
    ensures var g := Replayed(Encode(TaskCreateRecord(k.tasks[0], start)));
            && g.connects == {} && g.domains == {} && g.channels == map[]
            && 1 in g.tasks && g.tasks[1].alive
  {
    var r := TaskCreateRecord(k.tasks[0], start);
    ReplayAppend([], r);
    assert [] + Encode(r) == Encode(r);
  }

  lemma TaskInGraph(g: Graph, k: Sys, i: nat)
    requires Agrees(g, k) && i < |k.tasks|
    ensures i + 1 in g.tasks
  {}

  /** In the graph of any stream a task is dead exactly if it has exited. */
  lemma ExitsShown(states: seq<Sys>, wires: seq<seq<Byte>>, acts: seq<Act>, start: Long, k: nat, i: nat)
    requires IsAudited(states, wires, acts, start) && k <= |acts| && i < |states[k].tasks|
    ensures i + 1 in Replayed(wires[k]).tasks
    ensures !Replayed(wires[k]).tasks[i + 1].alive <==> exists j: nat :: j < k && ExitsAt(states, acts, i, j)
  {
    ReplayAgrees(states, wires, acts, start, k);
    TaskInGraph(Replayed(wires[k]), states[k], i);
    FirstGraph(states[0], start);
    var fact := (j: nat) => Dead(states, wires, i, j);
    var event := (j: nat) => j < |acts| < |states| && ExitsAt(states, acts, i, j);
    forall j: nat | j < k ensures fact(j + 1) <==> fact(j) || event(j) { DeadStep(states, wires, acts, start, j, i); }
    Accumulates(fact, event, k);
    assert fact(k) <==> exists j: nat :: j < k && event(j);
    assert forall j: nat :: j < k ==> (event(j) <==> ExitsAt(states, acts, i, j));
  }

  lemma LinkStep(states: seq<Sys>, wires: seq<seq<Byte>>, acts: seq<Act>, start: Long, j: nat, a: nat, b: nat)
    requires IsAudited(states, wires, acts, start) && j < |acts|
    ensures (a, b) in Replayed(wires[j + 1]).connects
            <==> (a, b) in Replayed(wires[j]).connects || ConnectsAt(states, acts, a, b, j)
    ensures (a, b) in Replayed(wires[j + 1]).domains
            <==> (a, b) in Replayed(wires[j]).domains || EdgeAt(states, acts, a, b, j)
  {
    StreamStep(states, wires, acts, start, j);
    match acts[j]
    case Kernel(op, code, now) =>
      ConnectStep(Replayed(wires[j]), states[j], op, code, now);
      EdgeStep(Replayed(wires[j]), states[j], op, code, now);
    case Other(r) =>
  }

  /** The graph's connections are exactly those that have been made. */
  lemma ConnectsShown(states: seq<Sys>, wires: seq<seq<Byte>>, acts: seq<Act>, start: Long, k: nat, a: nat, b: nat)
    requires IsAudited(states, wires, acts, start) && k <= |acts|
    ensures (a, b) in Replayed(wires[k]).connects <==> exists j: nat :: j < k && ConnectsAt(states, acts, a, b, j)
  {
    FirstGraph(states[0], start);
    var fact := (j: nat) => j < |wires| && (a, b) in Replayed(wires[j]).connects;
    var event := (j: nat) => j < |acts| < |states| && ConnectsAt(states, acts, a, b, j);
    forall j: nat | j < k ensures fact(j + 1) <==> fact(j) || event(j) { LinkStep(states, wires, acts, start, j, a, b); }
    Accumulates(fact, event, k);
    assert fact(k) <==> exists j: nat :: j < k && event(j);
    assert forall j: nat :: j < k ==> (event(j) <==> ConnectsAt(states, acts, a, b, j));
  }

  /** The graph's edges are exactly those that have been added. */
  lemma EdgesShown(states: seq<Sys>, wires: seq<seq<Byte>>, acts: seq<Act>, start: Long, k: nat, a: nat, b: nat)
    requires IsAudited(states, wires, acts, start) && k <= |acts|
    ensures (a, b) in Replayed(wires[k]).domains <==> exists j: nat :: j < k && EdgeAt(states, acts, a, b, j)
  {
    FirstGraph(states[0], start);
    var fact := (j: nat) => j < |wires| && (a, b) in Replayed(wires[j]).domains;
    var event := (j: nat) => j < |acts| < |states| && EdgeAt(states, acts, a, b, j);
    forall j: nat | j < k ensures fact(j + 1) <==> fact(j) || event(j) { LinkStep(states, wires, acts, start, j, a, b); }
    Accumulates(fact, event, k);
    assert fact(k) <==> exists j: nat :: j < k && event(j);
    assert forall j: nat :: j < k ==> (event(j) <==> EdgeAt(states, acts, a, b, j));
  }

  /** What a channel was created as by act j. */
  ghost function CreatedAs(states: seq<Sys>, acts: seq<Act>, c: nat, j: nat): GraphChannel {
    if j < |acts| < |states| && CreatesAt(states, acts, c, j) && states[j].current < |states[j].tasks|
    then GraphChannel(Me(states[j]).id, acts[j].op.chanCaps as nat, acts[j].op.chanDomain)
    else GraphChannel(0, 0, 0)
  }

  /** What the graph says of channel c after j acts. */
  ghost function ShownAs(wires: seq<seq<Byte>>, c: nat, j: nat): GraphChannel {
    if j < |wires| && c in Replayed(wires[j]).channels then Replayed(wires[j]).channels[c] else GraphChannel(0, 0, 0)
  }

  lemma ChannelShownStep(states: seq<Sys>, wires: seq<seq<Byte>>, acts: seq<Act>, start: Long, j: nat, c: nat)
    requires IsAudited(states, wires, acts, start) && j < |acts|
    ensures c in Replayed(wires[j + 1]).channels
            <==> c in Replayed(wires[j]).channels || CreatesAt(states, acts, c, j)
    ensures ShownAs(wires, c, j + 1)
            == if CreatesAt(states, acts, c, j) then CreatedAs(states, acts, c, j) else ShownAs(wires, c, j)
  {
    StreamStep(states, wires, acts, start, j);
    match acts[j]
    case Kernel(op, code, now) =>
      ChannelStep(Replayed(wires[j]), states[j], op, code, now);
      if op.CreateChannel? { CreationIs(states[j], op, c); }
    case Other(r) =>
  }

  /** The graph's channels are exactly those that have been created. */
  lemma ChannelsShown(states: seq<Sys>, wires: seq<seq<Byte>>, acts: seq<Act>, start: Long, k: nat, c: nat)
    requires IsAudited(states, wires, acts, start) && k <= |acts|
    ensures c in Replayed(wires[k]).channels <==> exists j: nat :: j < k && CreatesAt(states, acts, c, j)
  {
    FirstGraph(states[0], start);
    var fact := (j: nat) => j < |wires| && c in Replayed(wires[j]).channels;
    var event := (j: nat) => j < |acts| < |states| && CreatesAt(states, acts, c, j);
    forall j: nat | j < k ensures fact(j + 1) <==> fact(j) || event(j) { ChannelShownStep(states, wires, acts, start, j, c); }
    Accumulates(fact, event, k);
    assert fact(k) <==> exists j: nat :: j < k && event(j);
    assert forall j: nat :: j < k ==> (event(j) <==> CreatesAt(states, acts, c, j));
  }

  /** And each is shown as it was created last: by whom, with which capabilities, in which domain. */
  lemma ChannelShownAs(states: seq<Sys>, wires: seq<seq<Byte>>, acts: seq<Act>, start: Long, k: nat, c: nat, j: nat)
    requires IsAudited(states, wires, acts, start) && j < k <= |acts| && CreatesAt(states, acts, c, j)
    requires forall l: nat :: j < l < k ==> !CreatesAt(states, acts, c, l)
    ensures ShownAs(wires, c, k) == CreatedAs(states, acts, c, j)
  {
    var value := (l: nat) => ShownAs(wires, c, l);
    var event := (l: nat) => l < |acts| < |states| && CreatesAt(states, acts, c, l);
    var given := (l: nat) => CreatedAs(states, acts, c, l);
    forall l: nat | l < k ensures value(l + 1) == if event(l) then given(l) else value(l) {
      ChannelShownStep(states, wires, acts, start, l, c);
    }
    LatestCounts(value, event, given, k, j);
  }
}
