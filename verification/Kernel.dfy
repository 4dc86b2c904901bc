/** The kernel's tables and calls, each proved to make the step KernelSpec describes and to
    write the record Audit describes. The messaging layer enters as the net its calls act on. */
module Kernel {
  import opened TaskStates
  import opened Widths
  import opened Records
  import opened Domains
  import opened KernelSpec
  import opened KernelLaws
  import opened Audit
  import opened TaskTable
  import opened Auditor
  import N = NngSpec

  /** The mask test of the capability gates: nothing that is wanted, of whatever mask, is missing. */
  method HasAll(held: bv32, wanted: bv32) returns (ok: bool)
    ensures ok <==> forall m: bv32 :: Meets(wanted, m) ==> Meets(held, m)
    ensures ok == Within(wanted, held)
  {
    ok := held & wanted == wanted;
    WithinIsInclusion(wanted, held);
  }

  class Core {
    const table: Table
    const matrix: Matrix
    const exporter: Exporter
    const channels: array<Channel>
    var net: N.Net
    ghost var made: seq<N.Option<(nat, nat)>>

    ghost predicate Valid()
      reads this, table, table.slots, matrix, matrix.rows, exporter, channels
    {
      && channels as object != table.slots && channels as object != matrix.rows && table.slots as object != matrix.rows
      && channels as object != this && table as object != this && matrix as object != this && exporter as object != this
      && table.Valid() && matrix.Valid() && exporter.enabled
      && channels.Length == MAX_CHANNELS && N.Shape(net) && |made| == N.MAX_PIPES
    }

    ghost function View(): Sys
      requires table.count <= table.slots.Length
      reads this, table, table.slots, matrix, channels
    {
      Sys(table.Tasks(), table.current, channels[..], matrix.edges, matrix.isSealed, net, made)
    }

    constructor (base: nat, layer: N.Net)
      requires base + 8 * STACK_SIZE < 0x1_0000_0000
      requires N.Shape(layer)
      requires forall i :: 0 <= i < N.MAX_SOCKETS ==> layer.socks[i].None?
      requires forall i :: 0 <= i < N.MAX_PIPES ==> layer.pipes[i].None?
      ensures Valid() && Booted(View()) && net == layer && exporter.wire == []
    {
      table := new Table(base);
      matrix := new Matrix();
      exporter := new Exporter();
      net := layer;
      channels := new Channel[MAX_CHANNELS](_ => Channel(false, -1, 0, 0, 0, 0));
      made := seq(N.MAX_PIPES, _ => N.None);
    }

    /** The root task's record, which boot could not write. */
    method EmitRoot(now: Long)
      requires Valid()
      modifies exporter
      ensures Valid() && exporter.wire == old(exporter.wire) + Encode(TaskCreateRecord(View().tasks[0], now))
    {
      exporter.TaskCreate(table.slots[0], now);
    }

    method CreateTask(domain: Word, caps: bv32, priority: int, now: Long) returns (rv: int)
      requires Valid()
      modifies table, table.slots, exporter
      ensures Valid()
      ensures var op := Op.CreateTask(domain, caps, priority, table.StackTop(old(table.count)));
              && View() == Do(old(View()), op).0 && rv == Do(old(View()), op).1
              && exporter.wire == Extend(old(exporter.wire), Written(old(View()), op, 0, now))
    {
      rv := table.CreateTask(domain, caps, priority);
      if rv == 0 { exporter.TaskCreate(table.slots[table.count - 1], now); }
    }

    method SetEdge(a: Word, b: Word, now: Long) returns (rv: int)
      requires Valid()
      modifies matrix, matrix.rows, exporter
      ensures Valid()
      ensures View() == Do(old(View()), Op.SetEdge(a, b)).0 && rv == Do(old(View()), Op.SetEdge(a, b)).1
      ensures exporter.wire == Extend(old(exporter.wire), Written(old(View()), Op.SetEdge(a, b), 0, now))
    {
      rv := matrix.SetEdge(a, b);
      if rv == 0 { exporter.DomainEdge(a, b, now); }
    }

    method Seal()
      requires Valid()
      modifies matrix
      ensures Valid() && View() == Do(old(View()), Op.Seal).0
    {
      matrix.Seal();
    }

    /** SYS_EXIT: the record first, then the state. */
    method Exit(code: Word, now: Long)
      requires Valid()
      modifies table.slots, exporter
      ensures Valid() && View() == Do(old(View()), Op.Exit).0
      ensures exporter.wire == Extend(old(exporter.wire), Written(old(View()), Op.Exit, code, now))
    {
      exporter.TaskExit(table.slots[table.current].id, code, now);
      table.SetState(table.current, Terminated);
    }

    // --------------------------------------------------------------------- channels

    method FirstFree() returns (c: int)
      requires Valid()
      ensures c == if FreeChannel(View(), 0) == MAX_CHANNELS then -1 else FreeChannel(View(), 0)
    {
      for i := 0 to MAX_CHANNELS
        invariant FreeChannel(View(), 0) >= i
      {
        if !channels[i].inUse { return i; }
      }
      return -1;
    }

    method MayCreate(domain: Word, caps: bv32) returns (rv: int)
      requires Valid()
      ensures rv == CreateGate(View(), domain, caps)
    {
      var me := table.slots[table.current];
      var held := HasAll(me.caps, caps);
      if !held { return -4; }
      var edge := matrix.EdgeAllowed(me.domain, domain);
      if domain != me.domain && !edge && !MayCross(me.caps) { return -5; }
      return 0;
    }

    method CreateChannel(level: Word, domain: Word, caps: bv32, proto: int, now: Long) returns (rv: int)
      requires Valid()
      modifies this, channels, exporter
      ensures Valid()
      ensures var op := Op.CreateChannel(level, domain, caps, proto);
              && View() == Do(old(View()), op).0 && rv == Do(old(View()), op).1
              && exporter.wire == Extend(old(exporter.wire), Written(old(View()), op, 0, now))
    {
      rv := MayCreate(domain, caps);
      if rv != 0 { return; }
      var c := FirstFree();
      if c < 0 { return -1; }
      var id := N.FreeSocket(net, 0);
      var (net', made') := N.OnCreate(net, proto);
      if made' != N.OK { return -2; }
      net := net';
      channels[c] := Channel(true, id, level, domain, caps, table.slots[table.current].id);
      exporter.ChanCreate(c, channels[c], proto, now);
      return c;
    }

    method CloseChannel(id: int) returns (rv: int)
      requires Valid()
      modifies this, channels
      ensures Valid() && View() == Do(old(View()), Op.CloseChannel(id)).0 && rv == Do(old(View()), Op.CloseChannel(id)).1
    {
      if id < 0 || id >= MAX_CHANNELS { return -1; }
      if !channels[id].inUse { return -2; }
      var (net', closed) := N.OnClose(net, channels[id].sock);
      if closed != N.OK { return -3; }
      net := net';
      made := CutMade(made, net.pipes);
      channels[id] := channels[id].(inUse := false, sock := -1);
      return 0;
    }

    method MayConnect(a: int, b: int) returns (rv: int)
      requires Valid()
      ensures rv == if !InUse(View(), a) || !InUse(View(), b) then -1 else if !Reaches(View(), a, b) then EACCESS else 0
    {
      if a < 0 || a >= MAX_CHANNELS || !channels[a].inUse { return -1; }
      if b < 0 || b >= MAX_CHANNELS || !channels[b].inUse { return -1; }
      var src, dst := channels[a], channels[b];
      if src.domain != dst.domain {
        var edge := matrix.EdgeAllowed(src.domain, dst.domain);
        if !edge && !MayCross(src.caps) { return EACCESS; }
      }
      return 0;
    }

    method Connect(a: int, b: int, now: Long) returns (rv: int)
      requires Valid()
      modifies this, exporter
      ensures Valid()
      ensures View() == Do(old(View()), ConnectChannels(a, b)).0 && rv == Do(old(View()), ConnectChannels(a, b)).1
      ensures exporter.wire == Extend(old(exporter.wire), Written(old(View()), ConnectChannels(a, b), 0, now))
    {
      rv := MayConnect(a, b);
      if rv != 0 { return; }
      var src, dst := channels[a], channels[b];
      var (net', joined) := N.OnConnect(net, src.sock, dst.sock);
      if joined != N.OK { return joined; }
      ghost var i := N.FreePipe(net, 0);
      var proto := net.socks[src.sock].value;
      net := net';
      made := if i < |made| then made[i := N.Some((a, b))] else made;
      exporter.ChanConnect(a, src, proto, b, dst, now);
      return 0;
    }

    /** The checks of ipc_send before any side effect. */
    method MaySendOn(c: int, op: Word) returns (rv: int)
      requires Valid()
      ensures rv == SendGate(View(), c, op)
      ensures rv == 0 <==>
                && 0 <= c < 16 && channels[c].inUse && channels[c].caps & 1 != 0
                && (op in {0x102, 0x200, 0x201} ==> channels[c].caps & 8 != 0)
    {
      SendGateIff(View(), c, op);
      if c < 0 || c >= MAX_CHANNELS || !channels[c].inUse { return -2; }
      var held := HasAll(channels[c].caps, RequiredCaps(op));
      return if held then 0 else -7;
    }
  }
}
