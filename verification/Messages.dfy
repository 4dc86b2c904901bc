/** Kernel messages on the wire of the messaging layer: a priority byte, the operation, the
    payload with its terminator. */
module Messages {
  import opened Widths
  import opened Records

  const MAX_PAYLOAD: nat := 128
  const MAX_BODY: nat := 256

  /** The payload is what comes before the terminator, so it has no zero byte. */
  datatype Message = Message(priority: Byte, operation: Word, payload: seq<Byte>)

  predicate Proper(m: Message) { |m.payload| < MAX_PAYLOAD && 0 !in m.payload }

  function ToBody(m: Message): seq<Byte> { [m.priority] + Le(m.operation, 4) + m.payload + [0] }

  /** The C string in a buffer: the bytes before the first zero. */
  function CString(buffer: seq<Byte>): (s: seq<Byte>)
    ensures |s| <= |buffer| && s == buffer[..|s|] && 0 !in s
    ensures 0 in buffer ==> |s| < |buffer| && buffer[|s|] == 0
  {
    if buffer == [] || buffer[0] == 0 then [] else [buffer[0]] + CString(buffer[1..])
  }

  lemma {:induction false} CStringIs(buffer: seq<Byte>, n: nat)
    requires n < |buffer| && 0 !in buffer[..n] && buffer[n] == 0
    ensures CString(buffer) == buffer[..n]
  {
    if n > 0 {
      assert buffer[0] == buffer[..n][0];
      assert buffer[1..][..n - 1] == buffer[..n][1..];
      CStringIs(buffer[1..], n - 1);
    }
  }

  /** Fills the payload buffer: at most 127 bytes, then a terminator. */
  function Filled(data: seq<Byte>): (b: seq<Byte>)
    ensures 0 < |b| <= MAX_PAYLOAD && b[|b| - 1] == 0
  {
    (if |data| >= MAX_PAYLOAD then data[..MAX_PAYLOAD - 1] else data) + [0]
  }

  /** None for a body too short to hold the header. */
  function FromBody(body: seq<Byte>): (r: seq<Message>)
    ensures |r| == if |body| < 5 then 0 else 1
    ensures r != [] ==> Proper(r[0])
  {
    if |body| < 5 then []
    else
      var payload := CString(Filled(body[5..]));
      assert 0 in Filled(body[5..]);
      [Message(body[0], WordAt(body, 1), payload)]
  }

  /** What a body that is long enough means: its first byte, the next four as a little-endian word,
      and the bytes behind them up to a zero, the end, or 127 of them. */
  lemma FromBodyIs(body: seq<Byte>)
    requires |body| >= 5
    ensures var m := FromBody(body)[0];
            var n := |m.payload|;
            && m.priority == body[0] && Le(m.operation, 4) == body[1..5]
            && n <= 127 && 5 + n <= |body| && m.payload == body[5..5 + n] && 0 !in m.payload
            && (n == 127 || 5 + n == |body| || body[5 + n] == 0)
  {
    var data := body[5..];
    var b := Filled(data);
    var payload := CString(b);
    var n := |payload|;
    LeOfValue(body[1..5]);
    assert 0 in b by { assert b[|b| - 1] == 0; }
    assert b[..n] == payload && b[n] == 0;
    assert n <= |data| && data[..n] == payload;
    assert body[5..5 + n] == data[..n];
    if n < |b| - 1 { assert b[n] == data[n] && data[n] == body[5 + n]; }
  }

  /** Every kernel message is a body that the layer accepts and comes back as it was. The body
      fits the 64-byte block that the conversion asks for exactly when the payload has at most
      58 bytes. */
  lemma RoundTrip(m: Message)
    requires Proper(m)
    ensures |ToBody(m)| <= MAX_BODY && FromBody(ToBody(m)) == [m]
    ensures |ToBody(m)| <= 64 <==> |m.payload| <= 58
    ensures var body, n := ToBody(m), |m.payload|;
            && |body| == n + 6 && body[0] == m.priority && body[5..5 + n] == m.payload && body[5 + n] == 0
            && body[1..5] == [m.operation % 256, m.operation / 0x100 % 256,
                              m.operation / 0x1_0000 % 256, m.operation / 0x100_0000 % 256]
  {
    var body := ToBody(m);
    assert body[1..5] == Le(m.operation, 4);
    FourBytes(m.operation);
    Spans();
    ValueOfLe(m.operation, 4);
    var data := body[5..];
    assert data == m.payload + [0];
    var b, n := Filled(data), |m.payload|;
    assert b[..n] == m.payload && b[n] == 0;
    CStringIs(b, n);
  }
}
