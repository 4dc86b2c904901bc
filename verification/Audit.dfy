/** The structural records the kernel writes, and their agreement with its tables. */
module Audit {
  import opened TaskStates
  import opened Widths
  import opened Records
  import opened Domains
  import opened Replay
  import opened KernelSpec
  import opened KernelLaws
  import N = NngSpec

  // ------------------------------------------------------------------ the packing

  function Clamped(priority: int): Byte {
    if priority < 0 then 0 else if priority > 255 then 255 else priority
  }

  function CapsWord(caps: bv32): Word { caps as nat }

  function TaskCreateRecord(t: Task, now: Long): (r: Record)
    ensures Whole(r)
  {
    Record(MAGIC, VERSION, TASK_CREATE, now, Clamped(t.priority), t.domain % 256, 0, 0, t.id, t.parent,
           Words([CapsWord(t.caps), t.domain, t.stackTop, 0]))
  }

  function TaskExitRecord(id: Word, code: Word, now: Long): (r: Record)
    ensures Whole(r)
  {
    Record(MAGIC, VERSION, TASK_EXIT, now, 0, 0, 0, 0, id, code, Words([0, 0, 0, 0]))
  }

  function ChanCreateRecord(c: nat, ch: Channel, proto: int, now: Long): (r: Record)
    ensures Whole(r)
  {
    Record(MAGIC, VERSION, CHAN_CREATE, now, 0, ch.domain % 256, proto % 256, c % 256, CapsWord(ch.caps), ch.owner,
           Words([ch.domain, ch.level, 0, 0]))
  }

  function ChanConnectRecord(a: nat, src: Channel, proto: int, b: Word, dst: Channel, now: Long): (r: Record)
    ensures Whole(r)
  {
    Record(MAGIC, VERSION, CHAN_CONNECT, now, 0, src.domain % 256, proto % 256, a % 256, b, dst.domain,
           Words([CapsWord(src.caps), CapsWord(dst.caps), 0, 0]))
  }

  function DomainEdgeRecord(a: Word, b: Word, now: Long): (r: Record)
    ensures Whole(r)
  {
    Record(MAGIC, VERSION, DOMAIN_EDGE, now, 0, a % 256, 0, b % 256, a, b, Words([1, 0, 0, 0]))
  }

  /** Where every record has what it shares with the others. */
  lemma CommonBytes(r: Record)
    requires Whole(r) && r.magic == MAGIC && r.version == VERSION && r.kind < 256
    ensures var s := Encode(r);
            && s[0..4] == [0x49, 0x48, 0x47, 0x4C] && s[4..8] == [2, 0, r.kind, 0] && s[8..16] == Le(r.jiffies, 8)
            && s[16..20] == [r.priority, r.srcDomain, r.protocol, r.channel]
            && s[20..24] == Le(r.operation, 4) && s[24..28] == Le(r.checksum, 4) && s[28..44] == r.hash
  {
    Fields(r);
    MagicBytes();
    VersionBytes(r.kind);
    Slices(Encode(r));
  }

  lemma MagicBytes()
    ensures Le(MAGIC, 4) == [0x49, 0x48, 0x47, 0x4C]
  {
    FourBytes(MAGIC);
  }

  lemma VersionBytes(kind: Half)
    requires kind < 256
    ensures Le(VERSION, 2) + Le(kind, 2) == [2, 0, kind, 0]
  {
    assert Le(VERSION, 2) == [2] + Le(0, 1) && Le(kind, 2) == [kind] + Le(0, 1) && Le(0, 1) == [0];
  }

  lemma Slices(s: seq<Byte>)
    requires |s| == 44
    ensures s[4..8] == s[4..6] + s[6..8] && s[28..44] == s[28..]
  {}

  lemma WordBytes(vals: seq<Word>)
    requires |vals| == 4
    ensures Words(vals)[0..4] == Le(vals[0], 4) && Words(vals)[4..8] == Le(vals[1], 4)
    ensures Words(vals)[8..12] == Le(vals[2], 4) && Words(vals)[12..16] == Le(vals[3], 4)
  {}

  /** Where a task's records have its fields: id, parent, and the words of the payload. */
  lemma TaskBytes(t: Task, code: Word, now: Long)
    ensures var s := Encode(TaskCreateRecord(t, now));
            && s[6] == 4 && s[20..24] == Le(t.id, 4) && s[24..28] == Le(t.parent, 4)
            && s[28..44][0..4] == Le(t.caps as nat, 4) && s[28..44][4..8] == Le(t.domain, 4)
            && s[28..44][8..12] == Le(t.stackTop, 4) && s[17] == t.domain % 256
            && s[16] == if t.priority < 0 then 0 else if t.priority > 255 then 255 else t.priority
    ensures var s := Encode(TaskExitRecord(t.id, code, now));
            s[6] == 7 && s[20..24] == Le(t.id, 4) && s[24..28] == Le(code, 4)
  {
    var c, e := TaskCreateRecord(t, now), TaskExitRecord(t.id, code, now);
    CommonBytes(c);
    CommonBytes(e);
    WordBytes([CapsWord(t.caps), t.domain, t.stackTop, 0]);
    SameByte(Encode(c), c);
    SameByte(Encode(e), e);
  }

  lemma SameByte(s: seq<Byte>, r: Record)
    requires |s| == 44 && r.kind < 256
    requires s[4..8] == [2, 0, r.kind, 0] && s[16..20] == [r.priority, r.srcDomain, r.protocol, r.channel]
    ensures s[6] == r.kind && s[16] == r.priority && s[17] == r.srcDomain && s[18] == r.protocol && s[19] == r.channel
  {
    assert s[6] == s[4..8][2];
    assert s[16] == s[16..20][0] && s[17] == s[16..20][1] && s[18] == s[16..20][2] && s[19] == s[16..20][3];
  }

  /** Where a new channel's record has its fields. */
  lemma ChannelBytes(c: nat, ch: Channel, proto: int, now: Long)
    ensures var s := Encode(ChanCreateRecord(c, ch, proto, now));
            && s[6] == 5 && s[19] == c % 256 && s[18] == proto % 256 && s[17] == ch.domain % 256
            && s[20..24] == Le(ch.caps as nat, 4) && s[24..28] == Le(ch.owner, 4)
            && s[28..44][0..4] == Le(ch.domain, 4) && s[28..44][4..8] == Le(ch.level, 4)
  {
    var r := ChanCreateRecord(c, ch, proto, now);
    CommonBytes(r);
    WordBytes([ch.domain, ch.level, 0, 0]);
    SameByte(Encode(r), r);
  }

  /** Where a connection's record has its fields. */
  lemma ConnectionBytes(c: nat, ch: Channel, d: Word, dst: Channel, proto: int, now: Long)
    ensures var s := Encode(ChanConnectRecord(c, ch, proto, d, dst, now));
            && s[6] == 6 && s[19] == c % 256 && s[18] == proto % 256 && s[20..24] == Le(d, 4) && s[24..28] == Le(dst.domain, 4)
            && s[28..44][0..4] == Le(ch.caps as nat, 4) && s[28..44][4..8] == Le(dst.caps as nat, 4)
  {
    var r := ChanConnectRecord(c, ch, proto, d, dst, now);
    CommonBytes(r);
    WordBytes([CapsWord(ch.caps), CapsWord(dst.caps), 0, 0]);
    SameByte(Encode(r), r);
  }

  /** Where an edge's record has its fields. */
  lemma EdgeBytes(a: Word, b: Word, now: Long)
    ensures var s := Encode(DomainEdgeRecord(a, b, now));
            s[6] == 8 && s[20..24] == Le(a, 4) && s[24..28] == Le(b, 4) && s[28..44][0..4] == Le(1, 4)
  {
    var r := DomainEdgeRecord(a, b, now);
    CommonBytes(r);
    WordBytes([1, 0, 0, 0]);
    SameByte(Encode(r), r);
  }

  // ------------------------------------------------------------------ the stream

  /** The record one operation writes: one for a structural change, none for a failure. */
  ghost function Written(k: Sys, op: Op, code: Word, now: Long): (r: N.Option<Record>)
    requires Shaped(k) && Allowed(k, op)
    ensures r.Some? ==> Whole(r.value)
  {
    var (k', rv) := Do(k, op);
    match op
    case CreateTask(_, _, _, _) =>
      if rv == 0 && |k'.tasks| > |k.tasks| then N.Some(TaskCreateRecord(k'.tasks[|k.tasks|], now)) else N.None
    case Exit => N.Some(TaskExitRecord(Me(k).id, code, now))
    case CreateChannel(_, _, _, proto) =>
      if 0 <= rv < MAX_CHANNELS then N.Some(ChanCreateRecord(rv, k'.channels[rv], proto, now)) else N.None
    case ConnectChannels(a, b) =>
      if rv == 0 && InUse(k, a) && InUse(k, b)
      then N.Some(ChanConnectRecord(a, k.channels[a], ProtocolOf(k, a), b, k.channels[b], now)) else N.None
    case SetEdge(a, b) => if rv == 0 then N.Some(DomainEdgeRecord(a, b, now)) else N.None
    case _ => N.None
  }

  ghost predicate WholeIfAny(r: N.Option<Record>) { r.Some? ==> Whole(r.value) }

  ghost function ReadAny(g: Graph, r: N.Option<Record>): Graph
    requires WholeIfAny(r)
  {
    if r.None? then g else Read(g, r.value)
  }

  ghost function Extend(wire: seq<Byte>, r: N.Option<Record>): seq<Byte>
    requires WholeIfAny(r)
  {
    if r.None? then wire else wire + Encode(r.value)
  }

  lemma ReplayExtend(wire: seq<Byte>, r: N.Option<Record>)
    requires Untorn(wire) && WholeIfAny(r)
    ensures Untorn(Extend(wire, r)) && Replayed(Extend(wire, r)) == ReadAny(Replayed(wire), r)
  {
    if r.Some? { ReplayAppend(wire, r.value); }
  }

  ghost function ProtocolOf(k: Sys, c: nat): int
    requires InUse(k, c)
  {
    if N.Open(k.net, k.channels[c].sock) then k.net.socks[k.channels[c].sock].value else 0
  }

  /** Records that are not ours, or of the other kinds: messages, drops, heartbeats, denials,
      faults, workflow steps. */
  predicate NotStructural(r: Record) {
    Whole(r) && (r.magic != 0x4C474849 || r.kind !in {4, 5, 6, 7, 8})
  }

  // -------------------------------------------------------------------- agreement

  /** Exactly the tasks of the table, with their parents, capabilities and domains; and a task
      seen to exit is terminated. */
  ghost predicate TasksAgree(g: Graph, tasks: seq<Task>) {
    && (forall id :: id in g.tasks <==> 1 <= id <= |tasks|)
    && forall i {:trigger tasks[i]} :: 0 <= i < |tasks| ==>
         && g.tasks[i + 1].parent == tasks[i].parent && g.tasks[i + 1].caps == CapsWord(tasks[i].caps)
         && g.tasks[i + 1].domain == tasks[i].domain
         && (!g.tasks[i + 1].alive ==> tasks[i].state == Terminated)
  }

  /** The right owner, capabilities and domain for every channel in use. */
  ghost predicate ChannelsAgree(g: Graph, channels: seq<Channel>) {
    forall c {:trigger channels[c]} :: 0 <= c < |channels| && channels[c].inUse ==>
      && c in g.channels
      && g.channels[c] == GraphChannel(channels[c].owner, CapsWord(channels[c].caps), channels[c].domain)
  }

  /** Every live channel connection is in the graph. */
  ghost predicate ConnectsAgree(g: Graph, made: seq<N.Option<(nat, nat)>>) {
    forall p {:trigger made[p]} :: 0 <= p < |made| && made[p].Some? ==> made[p].value in g.connects
  }

  ghost predicate Agrees(g: Graph, k: Sys) {
    && TasksAgree(g, k.tasks) && ChannelsAgree(g, k.channels) && ConnectsAgree(g, k.made)
    && k.edges == g.domains + Identity()
  }

  lemma CreateTaskAgrees(g: Graph, k: Sys, domain: Word, caps: bv32, priority: int, stackTop: Word, now: Long)
    requires Shaped(k) && Agrees(g, k) && OnCreateTask(k, domain, caps, priority, stackTop).1 == 0
    ensures var k' := OnCreateTask(k, domain, caps, priority, stackTop).0;
            Agrees(Read(g, TaskCreateRecord(k'.tasks[|k.tasks|], now)), k')
  {
    var k' := OnCreateTask(k, domain, caps, priority, stackTop).0;
    var t := k'.tasks[|k.tasks|];
    WordsAt([CapsWord(t.caps), t.domain, t.stackTop, 0]);
    assert k'.tasks == k.tasks + [t];
  }

  lemma ExitAgrees(g: Graph, k: Sys, code: Word, now: Long)
    requires Shaped(k) && Agrees(g, k) && Me(k).id == k.current + 1
    ensures Agrees(Read(g, TaskExitRecord(Me(k).id, code, now)), OnSetTask(k, k.current, Terminated))
  {}

  lemma SetTaskAgrees(g: Graph, k: Sys, slot: nat, state: TaskState)
    requires Shaped(k) && Agrees(g, k) && slot < |k.tasks| && k.tasks[slot].state != Terminated
    ensures Agrees(g, OnSetTask(k, slot, state))
  {}

  lemma CreateChannelAgrees(g: Graph, k: Sys, level: Word, domain: Word, caps: bv32, proto: int, now: Long)
    requires Shaped(k) && Agrees(g, k) && OnCreateChannel(k, level, domain, caps, proto).1 >= 0
    ensures var (k', c) := OnCreateChannel(k, level, domain, caps, proto);
            c < MAX_CHANNELS && Agrees(Read(g, ChanCreateRecord(c, k'.channels[c], proto, now)), k')
  {
    var (k', c) := OnCreateChannel(k, level, domain, caps, proto);
    var ch := k'.channels[c];
    WordsAt([ch.domain, ch.level, 0, 0]);
    assert c % 256 == c;
  }

  lemma CutAgrees(g: Graph, made: seq<N.Option<(nat, nat)>>, pipes: seq<N.Option<N.Pipe>>)
    requires |made| == |pipes| && ConnectsAgree(g, made)
    ensures ConnectsAgree(g, CutMade(made, pipes))
  {
    forall p | 0 <= p < |made| && CutMade(made, pipes)[p].Some? ensures CutMade(made, pipes)[p].value in g.connects {
      assert CutMade(made, pipes)[p] == made[p];
    }
  }

  lemma CloseChannelAgrees(g: Graph, k: Sys, id: int)
    requires Shaped(k) && Agrees(g, k)
    ensures Agrees(g, OnCloseChannel(k, id).0)
  {
    var (k', rv) := OnCloseChannel(k, id);
    if rv == 0 { CutAgrees(g, k.made, k'.net.pipes); }
  }

  lemma ConnectAgrees(g: Graph, k: Sys, a: int, b: int, now: Long)
    requires Shaped(k) && Agrees(g, k) && OnConnectChannels(k, a, b).1 == 0
    ensures InUse(k, a) && InUse(k, b)
    ensures var r := ChanConnectRecord(a, k.channels[a], ProtocolOf(k, a), b, k.channels[b], now);
            Agrees(Read(g, r), OnConnectChannels(k, a, b).0)
  {
    assert a % 256 == a;
  }

  lemma SetEdgeAgrees(g: Graph, k: Sys, a: Word, b: Word, now: Long)
    requires Shaped(k) && Agrees(g, k) && OnSetEdge(k, a, b).1 == 0
    ensures Agrees(Read(g, DomainEdgeRecord(a, b, now)), OnSetEdge(k, a, b).0)
  {
    var k' := OnSetEdge(k, a, b).0;
    assert k'.edges == (g.domains + {(a, b)}) + Identity();
  }

  lemma NetCallAgrees(g: Graph, k: Sys, call: N.Call)
    requires Shaped(k) && Agrees(g, k)
    ensures Agrees(g, OnNetCall(k, call).0)
  {
    var (net, rv) := N.Apply(k.net, call);
    var i := N.FreePipe(k.net, 0);
    var made := if call.Connect? && rv == N.OK && i < N.MAX_PIPES then k.made[i := N.None] else k.made;
    CutAgrees(g, made, net.pipes);
  }

  /** The record an operation writes moves the graph along with the kernel. */
  lemma StepAgrees(g: Graph, k: Sys, op: Op, code: Word, now: Long)
    requires Shaped(k) && Allowed(k, op) && Me(k).id == k.current + 1 && Agrees(g, k)
    ensures Agrees(ReadAny(g, Written(k, op, code, now)), Do(k, op).0)
  {
    var rv := Do(k, op).1;
    match op
    case CreateTask(domain, caps, priority, stackTop) =>
      if rv == 0 { CreateTaskAgrees(g, k, domain, caps, priority, stackTop, now); }
    case Switch(slot) =>
    case SetTask(slot, state) => SetTaskAgrees(g, k, slot, state);
    case Exit => ExitAgrees(g, k, code, now);
    case CreateChannel(level, domain, caps, proto) =>
      if rv >= 0 { CreateChannelAgrees(g, k, level, domain, caps, proto, now); }
    case CloseChannel(id) => CloseChannelAgrees(g, k, id);
    case ConnectChannels(a, b) => if rv == 0 { ConnectAgrees(g, k, a, b, now); }
    case SetEdge(a, b) => if rv == 0 { SetEdgeAgrees(g, k, a, b, now); }
    case Seal =>
    case NetCall(call) => NetCallAgrees(g, k, call);
  }

  // ------------------------------------------------------------------- whole runs

  /** What happens next: a kernel operation at some time, or a record of another kind. */
  datatype Act = Kernel(op: Op, code: Word, now: Long) | Other(record: Record)

  ghost predicate ActAt(states: seq<Sys>, wires: seq<seq<Byte>>, acts: seq<Act>, i: nat)
    requires i < |acts| && |states| == |wires| == |acts| + 1
  {
    match acts[i]
    case Kernel(op, code, now) =>
      && Shaped(states[i]) && Allowed(states[i], op) && states[i + 1] == Do(states[i], op).0
      && wires[i + 1] == Extend(wires[i], Written(states[i], op, code, now))
    case Other(r) =>
      NotStructural(r) && states[i + 1] == states[i] && wires[i + 1] == wires[i] + Encode(r)
  }

  /** A run from boot whose stream starts with the root task's record. */
  ghost predicate IsAudited(states: seq<Sys>, wires: seq<seq<Byte>>, acts: seq<Act>, start: Long) {
    && |states| == |wires| == |acts| + 1 && Booted(states[0])
    && wires[0] == Encode(TaskCreateRecord(states[0].tasks[0], start))
    && forall i {:trigger ActAt(states, wires, acts, i)} :: 0 <= i < |acts| ==> ActAt(states, wires, acts, i)
  }

  lemma RootAgrees(k: Sys, start: Long)
    requires Booted(k)
    ensures Agrees(Read(EMPTY, TaskCreateRecord(k.tasks[0], start)), k)
  {
    var t := k.tasks[0];
    WordsAt([CapsWord(t.caps), t.domain, t.stackTop, 0]);
  }

  lemma BootAgrees(k: Sys, start: Long)
    requires Booted(k)
    ensures var wire := Encode(TaskCreateRecord(k.tasks[0], start)); Untorn(wire) && Agrees(Replayed(wire), k)
  {
    var r := TaskCreateRecord(k.tasks[0], start);
    ReplayAppend([], r);
    assert [] + Encode(r) == Encode(r);
    RootAgrees(k, start);
  }

  lemma OtherAgrees(wire: seq<Byte>, k: Sys, r: Record)
    requires Untorn(wire) && Agrees(Replayed(wire), k) && NotStructural(r)
    ensures Untorn(wire + Encode(r)) && Agrees(Replayed(wire + Encode(r)), k)
  {
    ReplayAppend(wire, r);
  }

  lemma KernelAgrees(wire: seq<Byte>, k: Sys, op: Op, code: Word, now: Long)
    requires Lawful(k) && Allowed(k, op) && Untorn(wire) && Agrees(Replayed(wire), k)
    ensures var wire' := Extend(wire, Written(k, op, code, now));
            Lawful(Do(k, op).0) && Untorn(wire') && Agrees(Replayed(wire'), Do(k, op).0)
  {
    StepKeeps(k, op);
    assert TaskOk(k.tasks, k.current);
    StepAgrees(Replayed(wire), k, op, code, now);
    ReplayExtend(wire, Written(k, op, code, now));
  }

  /** Replaying the stream of any run gives a graph that agrees with the kernel's tables. */
  lemma {:induction false} ReplayAgrees(
      states: seq<Sys>, wires: seq<seq<Byte>>, acts: seq<Act>, start: Long, i: nat)
    requires IsAudited(states, wires, acts, start) && i <= |acts|
    ensures Lawful(states[i]) && Untorn(wires[i]) && Agrees(Replayed(wires[i]), states[i])
  {
    if i == 0 {
      BootLawful(states[0]);
      BootAgrees(states[0], start);
    } else {
      ReplayAgrees(states, wires, acts, start, i - 1);
      assert ActAt(states, wires, acts, i - 1);
      match acts[i - 1]
      case Kernel(op, code, now) => KernelAgrees(wires[i - 1], states[i - 1], op, code, now);
      case Other(r) => OtherAgrees(wires[i - 1], states[i - 1], r);
    }
  }
}
