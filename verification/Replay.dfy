/** The reader that rebuilds the system graph from the telemetry stream alone. */
module Replay {
  import opened Widths
  import opened Records

  datatype GraphTask = GraphTask(parent: Word, caps: Word, domain: Word, alive: bool)
  datatype GraphChannel = GraphChannel(owner: Word, caps: Word, domain: Word)

  datatype Graph = Graph(
    tasks: map<nat, GraphTask>,
    channels: map<nat, GraphChannel>,
    connects: set<(nat, nat)>,
    domains: set<(nat, nat)>)

  const EMPTY := Graph(map[], map[], {}, {})

  function ApplyRecord(g: Graph, r: Record): Graph
    requires Whole(r)
  {
    if r.kind == TASK_CREATE then
      g.(tasks := g.tasks[r.operation := GraphTask(r.checksum, WordAt(r.hash, 0), WordAt(r.hash, 4), true)])
    else if r.kind == TASK_EXIT then
      if r.operation in g.tasks
      then g.(tasks := g.tasks[r.operation := g.tasks[r.operation].(alive := false)])
      else g
    else if r.kind == CHAN_CREATE then
      g.(channels := g.channels[r.channel := GraphChannel(r.checksum, r.operation, WordAt(r.hash, 0))])
    else if r.kind == CHAN_CONNECT then g.(connects := g.connects + {(r.channel, r.operation)})
    else if r.kind == DOMAIN_EDGE then g.(domains := g.domains + {(r.operation, r.checksum)})
    else g
  }

  /** What a reader makes of one record: foreign ones are passed over. */
  function Read(g: Graph, r: Record): Graph
    requires Whole(r)
  {
    if r.magic != MAGIC then g else ApplyRecord(g, r)
  }

  function Chunk(blob: seq<Byte>, i: nat): seq<Byte>
    requires 44 * (i + 1) <= |blob|
  {
    blob[44 * i..44 * (i + 1)]
  }

  function ReadChunk(g: Graph, raw: seq<Byte>): Graph {
    if |raw| == RECORD_SIZE then Read(g, Parse(raw)) else g
  }

  /** Folds a step over the first n records of a stream. */
  function Fold<G>(step: (G, seq<Byte>) -> G, start: G, blob: seq<Byte>, n: nat): G
    requires 44 * n <= |blob|
  {
    if n == 0 then start else step(Fold(step, start, blob, n - 1), Chunk(blob, n - 1))
  }

  /** The graph after the first n records of a stream. */
  function ReplayTo(blob: seq<Byte>, n: nat): Graph
    requires 44 * n <= |blob|
  {
    Fold(ReadChunk, EMPTY, blob, n)
  }

  /** The stream ends with a record's last byte. */
  predicate Untorn(blob: seq<Byte>) { |blob| % 44 == 0 }

  function Replayed(blob: seq<Byte>): Graph {
    ReplayTo(blob, |blob| / 44)
  }

  lemma {:induction false} FoldPrefix<G>(
      step: (G, seq<Byte>) -> G, start: G, blob: seq<Byte>, more: seq<Byte>, n: nat)
    requires 44 * n <= |blob|
    ensures Fold(step, start, blob + more, n) == Fold(step, start, blob, n)
  {
    if n > 0 {
      FoldPrefix(step, start, blob, more, n - 1);
      assert Chunk(blob + more, n - 1) == Chunk(blob, n - 1);
    }
  }

  lemma FoldChunk<G>(step: (G, seq<Byte>) -> G, start: G, blob: seq<Byte>, raw: seq<Byte>)
    requires Untorn(blob) && |raw| == RECORD_SIZE
    ensures Untorn(blob + raw)
    ensures Fold(step, start, blob + raw, |blob + raw| / 44) == step(Fold(step, start, blob, |blob| / 44), raw)
  {
    var n := |blob| / 44;
    assert |blob| == 44 * n;
    assert |blob + raw| == 44 * (n + 1);
    assert |blob + raw| / 44 == n + 1;
    FoldPrefix(step, start, blob, raw, n);
    assert Chunk(blob + raw, n) == raw;
  }

  /** One more record on the stream is one more step of the reader. */
  lemma ReplayAppend(blob: seq<Byte>, r: Record)
    requires Untorn(blob) && Whole(r)
    ensures Untorn(blob + Encode(r))
    ensures Replayed(blob + Encode(r)) == Read(Replayed(blob), r)
  {
    FoldChunk(ReadChunk, EMPTY, blob, Encode(r));
    ParseEncode(r);
  }

  /** The reader's loop; a torn stream is refused. */
  method Reconstruct(blob: seq<Byte>) returns (ok: bool, g: Graph)
    ensures ok == Untorn(blob) && g == if ok then Replayed(blob) else EMPTY
  {
    g := EMPTY;
    if |blob| % 44 != 0 { return false, g; }
    for i := 0 to |blob| / 44
      invariant g == ReplayTo(blob, i)
    {
      var rec := Parse(blob[44 * i..44 * (i + 1)]);
      if rec.magic != MAGIC { continue; }
      g := ApplyRecord(g, rec);
    }
    return true, g;
  }
}
