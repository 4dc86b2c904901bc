/** The exporter: fills a record for each event and writes it to the wire. */
module Auditor {
  import opened TaskStates
  import opened Widths
  import opened Records
  import opened KernelSpec
  import opened Audit

  class Exporter {
    var enabled: bool
    var wire: seq<Byte>

    constructor ()
      ensures enabled && wire == []
    {
      enabled := true;
      wire := [];
    }

    /** Sends a record byte by byte. */
    method Send(r: Record)
      requires Whole(r)
      modifies `wire
      ensures wire == old(wire) + Encode(r)
    {
      var bytes := Encode(r);
      for i := 0 to |bytes|
        invariant wire == old(wire) + bytes[..i]
      {
        wire := wire + [bytes[i]];
      }
      assert bytes[..|bytes|] == bytes;
    }

    method TaskCreate(t: Task, now: Long)
      modifies `wire
      ensures wire == old(wire) + if enabled then Encode(TaskCreateRecord(t, now)) else []
    {
      if !enabled { return; }
      var p := t.priority;
      if p < 0 { p := 0; }
      if p > 255 { p := 255; }
      var hash := PackWords([t.caps as nat, t.domain, t.stackTop, 0]);
      Send(Record(MAGIC, VERSION, TASK_CREATE, now, p, t.domain % 256, 0, 0, t.id, t.parent, hash));
    }

    method TaskExit(id: Word, code: Word, now: Long)
      modifies `wire
      ensures wire == old(wire) + if enabled then Encode(TaskExitRecord(id, code, now)) else []
    {
      if !enabled { return; }
      var hash := PackWords([0, 0, 0, 0]);
      Send(Record(MAGIC, VERSION, TASK_EXIT, now, 0, 0, 0, 0, id, code, hash));
    }

    method ChanCreate(c: nat, ch: Channel, proto: int, now: Long)
      modifies `wire
      ensures wire == old(wire) + if enabled then Encode(ChanCreateRecord(c, ch, proto, now)) else []
    {
      if !enabled { return; }
      var hash := PackWords([ch.domain, ch.level, 0, 0]);
      Send(Record(MAGIC, VERSION, CHAN_CREATE, now, 0, ch.domain % 256, proto % 256, c % 256,
                  ch.caps as nat, ch.owner, hash));
    }

    method ChanConnect(a: nat, src: Channel, proto: int, b: Word, dst: Channel, now: Long)
      modifies `wire
      ensures wire == old(wire) + if enabled then Encode(ChanConnectRecord(a, src, proto, b, dst, now)) else []
    {
      if !enabled { return; }
      var hash := PackWords([src.caps as nat, dst.caps as nat, 0, 0]);
      Send(Record(MAGIC, VERSION, CHAN_CONNECT, now, 0, src.domain % 256, proto % 256, a % 256, b, dst.domain, hash));
    }

    method DomainEdge(a: Word, b: Word, now: Long)
      modifies `wire
      ensures wire == old(wire) + if enabled then Encode(DomainEdgeRecord(a, b, now)) else []
    {
      if !enabled { return; }
      var hash := PackWords([1, 0, 0, 0]);
      Send(Record(MAGIC, VERSION, DOMAIN_EDGE, now, 0, a % 256, 0, b % 256, a, b, hash));
    }
  }
}
