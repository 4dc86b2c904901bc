/** Unsigned integers of the machine's widths. */
module Widths {
  type Byte = x: nat | x < 256
  type Half = x: nat | x < 0x1_0000
  type Word = x: nat | x < 0x1_0000_0000
  type Long = x: nat | x < 0x1_0000_0000_0000_0000
}

/** The 44-byte telemetry record: its packing by the exporter and its parsing by the reader. */
module Records {
  import opened Widths

  const MAGIC: Word := 0x4C474849
  const VERSION: Half := 2
  const RECORD_SIZE: nat := 44

  const TASK_CREATE: Half := 4
  const CHAN_CREATE: Half := 5
  const CHAN_CONNECT: Half := 6
  const TASK_EXIT: Half := 7
  const DOMAIN_EDGE: Half := 8

  datatype Record = Record(
    magic: Word, version: Half, kind: Half, jiffies: Long,
    priority: Byte, srcDomain: Byte, protocol: Byte, channel: Byte,
    operation: Word, checksum: Word, hash: seq<Byte>)

  predicate Whole(r: Record) { |r.hash| == 16 }

  // ---------------------------------------------------------------- little endian

  /** 256 to the power n. */
  function Span(n: nat): (r: nat)
    ensures r > 0
  {
    if n == 0 then 1 else 256 * Span(n - 1)
  }

  function Le(v: nat, n: nat): (s: seq<Byte>)
    ensures |s| == n
  {
    if n == 0 then [] else [v % 256] + Le(v / 256, n - 1)
  }

  function Value(s: seq<Byte>): nat {
    if s == [] then 0 else s[0] + 256 * Value(s[1..])
  }

  lemma {:induction false} ValueOfLe(v: nat, n: nat)
    requires v < Span(n)
    ensures Value(Le(v, n)) == v
  {
    if n > 0 {
      var q, r := v / 256, v % 256;
      assert v == 256 * q + r;
      ValueOfLe(q, n - 1);
      assert Le(v, n)[1..] == Le(q, n - 1);
    }
  }

  lemma {:induction false} LeOfValue(s: seq<Byte>)
    ensures Value(s) < Span(|s|) && Le(Value(s), |s|) == s
  {
    if s != [] {
      LeOfValue(s[1..]);
      var q := Value(s[1..]);
      assert Value(s) == s[0] + 256 * q;
      assert Value(s) / 256 == q && Value(s) % 256 == s[0];
      assert s == [s[0]] + s[1..];
    }
  }

  lemma Spans()
    ensures Span(2) == 0x1_0000 && Span(4) == 0x1_0000_0000 && Span(8) == 0x1_0000_0000_0000_0000
  {
    assert Span(1) == 256;
    assert Span(2) == 256 * Span(1);
    assert Span(3) == 256 * Span(2);
    assert Span(4) == 256 * Span(3);
    assert Span(5) == 256 * Span(4);
    assert Span(6) == 256 * Span(5);
    assert Span(7) == 256 * Span(6);
    assert Span(8) == 256 * Span(7);
  }

  /** The little-endian word at an offset. */
  function WordAt(s: seq<Byte>, i: nat): (w: Word)
    requires i + 4 <= |s|
  {
    Spans();
    LeOfValue(s[i..i + 4]);
    Value(s[i..i + 4])
  }

  // --------------------------------------------------------------------- the codec

  function Encode(r: Record): (s: seq<Byte>)
    requires Whole(r)
    ensures |s| == RECORD_SIZE
  {
    Le(r.magic, 4) + Le(r.version, 2) + Le(r.kind, 2) + Le(r.jiffies, 8)
    + [r.priority, r.srcDomain, r.protocol, r.channel] + Le(r.operation, 4) + Le(r.checksum, 4) + r.hash
  }

  function Parse(s: seq<Byte>): (r: Record)
    requires |s| == RECORD_SIZE
    ensures Whole(r)
  {
    Spans();
    LeOfValue(s[4..6]);
    LeOfValue(s[6..8]);
    LeOfValue(s[8..16]);
    Record(WordAt(s, 0), Value(s[4..6]), Value(s[6..8]), Value(s[8..16]),
           s[16], s[17], s[18], s[19], WordAt(s, 20), WordAt(s, 24), s[28..])
  }

  lemma Fields(r: Record)
    requires Whole(r)
    ensures var s := Encode(r);
            && s[0..4] == Le(r.magic, 4) && s[4..6] == Le(r.version, 2) && s[6..8] == Le(r.kind, 2)
            && s[8..16] == Le(r.jiffies, 8)
            && s[16..20] == [r.priority, r.srcDomain, r.protocol, r.channel]
            && s[20..24] == Le(r.operation, 4) && s[24..28] == Le(r.checksum, 4) && s[28..] == r.hash
  {}

  /** Parsing a packed record gives the record back. */
  lemma ParseEncode(r: Record)
    requires Whole(r)
    ensures Parse(Encode(r)) == r
  {
    Fields(r);
    Spans();
    ValueOfLe(r.magic, 4);
    ValueOfLe(r.version, 2);
    ValueOfLe(r.kind, 2);
    ValueOfLe(r.jiffies, 8);
    ValueOfLe(r.operation, 4);
    ValueOfLe(r.checksum, 4);
    var s := Encode(r);
    assert s[16] == s[16..20][0] && s[17] == s[16..20][1] && s[18] == s[16..20][2] && s[19] == s[16..20][3];
  }

  /** Packing a parsed record gives the bytes back: no two byte strings mean the same record. */
  lemma EncodeParse(s: seq<Byte>)
    requires |s| == RECORD_SIZE
    ensures Encode(Parse(s)) == s
  {
    LeOfValue(s[0..4]);
    LeOfValue(s[4..6]);
    LeOfValue(s[6..8]);
    LeOfValue(s[8..16]);
    LeOfValue(s[20..24]);
    LeOfValue(s[24..28]);
    assert s == s[0..4] + s[4..6] + s[6..8] + s[8..16] + [s[16], s[17], s[18], s[19]] + s[20..24] + s[24..28] + s[28..];
  }

  // ------------------------------------------------------------- the payload words

  /** Four words, little endian. */
  function Words(vals: seq<Word>): (s: seq<Byte>)
    requires |vals| == 4
    ensures |s| == 16
  {
    Le(vals[0], 4) + Le(vals[1], 4) + Le(vals[2], 4) + Le(vals[3], 4)
  }

  lemma WordsAt(vals: seq<Word>)
    requires |vals| == 4
    ensures WordAt(Words(vals), 0) == vals[0] && WordAt(Words(vals), 4) == vals[1]
  {
    Spans();
    ValueOfLe(vals[0], 4);
    ValueOfLe(vals[1], 4);
    assert Words(vals)[0..4] == Le(vals[0], 4);
    assert Words(vals)[4..8] == Le(vals[1], 4);
  }

  /** The four bytes that the shifts by 0, 8, 16 and 24 leave are the little-endian word. */
  lemma FourBytes(v: nat)
    ensures Le(v, 4) == [v % 256, v / 0x100 % 256, v / 0x1_0000 % 256, v / 0x100_0000 % 256]
  {
    assert v / 0x1_0000 == v / 0x100 / 256;
    assert v / 0x100_0000 == v / 0x100 / 256 / 256;
    assert Le(v, 4) == [v % 256] + Le(v / 256, 3);
    assert Le(v / 256, 3) == [v / 256 % 256] + Le(v / 256 / 256, 2);
    assert Le(v / 256 / 256, 2) == [v / 256 / 256 % 256] + Le(v / 256 / 256 / 256, 1);
    assert Le(v / 256 / 256 / 256, 1) == [v / 256 / 256 / 256 % 256] + [];
  }

  /** The exporter's loop: each word by shifts into four bytes of the payload field. */
  method PackWords(vals: seq<Word>) returns (hash: seq<Byte>)
    requires |vals| == 4
    ensures hash == Words(vals)
  {
    var bytes := new Byte[16](_ => 0);
    ghost var done: seq<Byte> := [];
    for i := 0 to 4
      invariant |done| == 4 * i && bytes[..4 * i] == done
      invariant done == Words(vals)[..4 * i]
    {
      FourBytes(vals[i]);
      bytes[4 * i] := vals[i] % 256;
      bytes[4 * i + 1] := vals[i] / 0x100 % 256;
      bytes[4 * i + 2] := vals[i] / 0x1_0000 % 256;
      bytes[4 * i + 3] := vals[i] / 0x100_0000 % 256;
      assert bytes[..4 * i + 4] == bytes[..4 * i] + Le(vals[i], 4);
      WordsPrefix(vals, i);
      done := done + Le(vals[i], 4);
    }
    hash := bytes[..];
    assert Words(vals)[..16] == Words(vals);
  }

  lemma WordsPrefix(vals: seq<Word>, i: nat)
    requires |vals| == 4 && i < 4
    ensures Words(vals)[..4 * i + 4] == Words(vals)[..4 * i] + Le(vals[i], 4)
  {
    if i == 0 {} else if i == 1 {} else if i == 2 {} else {}
  }
}
