/** Copies of messages: when a copy is what was sent, and what happens to a body that is too
    long for its block. */
module NngCopies {
  import opened Widths
  import opened Memory
  import opened Heaps
  import opened NngSpec
  import opened NngLayout
  import opened NngMemory

  /** An append of what the header at src names. */
  function FilledFrom(mem: seq<Byte>, p: nat, src: nat, sum: Body -> Word): seq<Byte> {
    AppendedFrom(mem, p, BodyPtr(mem, src), BodyLen(mem, src), sum)
  }

  /** A copy of the message at src: a new message with its header at p and its body at b, then an
      append of what the header at src names by then. */
  function CopyMade(mem: seq<Byte>, src: nat, p: nat, b: nat, sum: Body -> Word): seq<Byte> {
    var m := NewMessage(mem, p, b);
    if BodyLen(m, src) > 0 then FilledFrom(m, p, src, sum) else m
  }

  predicate InRegion(a: nat, n: nat) { HEAP_START <= a && a + n <= HEAP_END }

  /** A source with its header at p and n bytes of body at b, whose header block is neither of the
      two small blocks q and c that its copy is made in, and a copy that does not run over its own
      header. */
  predicate Placed(p: nat, b: nat, n: nat, q: nat, c: nat) {
    && InRegion(p, 64) && InRegion(b, n) && InRegion(q, 64) && InRegion(c, 64) && InRegion(c, n) && n <= BODY_SIZE
    && ClassOf(q) == 0 && ClassOf(c) == 0
    && Apart(p, 64, b, n) && Apart(p, 64, q, 64) && Apart(p, 64, c, 64) && Apart(q, 64, c, 64) && Apart(q, 64, c, n)
  }

  /** The body is clear of the two blocks that the copy takes. */
  predicate ClearOf(b: nat, n: nat, q: nat, c: nat) { Apart(b, n, q, 64) && Apart(b, n, c, 64) }

  // ------------------------------------------------------------------ clear: it arrives

  lemma WipedIs(mem: seq<Byte>, a: nat)
    requires ClassOf(a) == 0
    ensures Wiped(mem, a) == Save(mem, a, Zeros(64))
  {}

  /** What lies clear of both blocks stays. */
  lemma NewElsewhere(mem: seq<Byte>, q: nat, c: nat, a: nat, n: nat)
    requires ClassOf(q) == 0 && ClassOf(c) == 0 && ClearOf(a, n, q, c)
    ensures Load(NewMessage(mem, q, c), a, n) == Load(mem, a, n)
  {
    var z := Zeros(64);
    WipedIs(mem, q);
    SaveApart(mem, q, z, a, n);
    WipedIs(Save(mem, q, z), c);
    SaveApart(Save(mem, q, z), c, z, a, n);
    SaveApart(Save(Save(mem, q, z), c, z), q, Header(c, 0, 0), a, n);
  }

  lemma SourceNamed(mem: seq<Byte>, p: nat, b: nat, data: Body, q: nat, c: nat)
    requires Placed(p, b, |data|, q, c) && Holds(mem, p, b, data)
    ensures BodyPtr(NewMessage(mem, q, c), p) == b && BodyLen(NewMessage(mem, q, c), p) == |data|
  {
    NewElsewhere(mem, q, c, p, 4);
    NewElsewhere(mem, q, c, p + 4, 4);
  }

  lemma ClearArrives(mem: seq<Byte>, p: nat, b: nat, data: Body, q: nat, c: nat, sum: Body -> Word)
    requires |mem| == HEAP_END - HEAP_START && Placed(p, b, |data|, q, c) && ClearOf(b, |data|, q, c)
    requires Holds(mem, p, b, data)
    ensures BodyAt(CopyMade(mem, p, q, c, sum), q) == data
  {
    var m := NewMessage(mem, q, c);
    SourceNamed(mem, p, b, data, q, c);
    NewElsewhere(mem, q, c, b, |data|);
    NewHolds(mem, q, c);
    if |data| > 0 {
      ForwardAppend(m, q, b, |data|, sum);
      AppendHolds(m, q, c, [], data, sum);
      assert [] + data == data;
    }
  }

  // ------------------------------------------------------------- not clear: it may not

  lemma HeapIsLocal()
    ensures Local(Load, Save)
  {
    forall mem, a: nat, data, addr: nat, n: nat | Apart(addr, n, a, |data|)
      ensures Load(Save(mem, a, data), addr, n) == Load(mem, addr, n)
    {
      SaveApart(mem, a, data, addr, n);
    }
  }

  lemma CopyElsewhere(mem: seq<Byte>, dst: nat, src: nat, k: nat, a: nat, n: nat)
    requires Apart(a, n, dst, k)
    ensures Load(CopiedTo(mem, dst, src, k), a, n) == Load(mem, a, n)
  {
    HeapIsLocal();
    CopyOverElsewhere(Load, Save, mem, dst, src, k, a, n);
  }

  lemma CopyByte(mem: seq<Byte>, dst: nat, src: nat, n: nat, i: nat)
    requires i < n && Inside(mem, dst, n) && Inside(mem, src, n)
    ensures Load(CopiedTo(mem, dst, src, n), dst + i, 1) == Load(CopiedTo(mem, dst, src, i), src + i, 1)
  {
    HeapIsLocal();
    CopyOverSize(mem, dst, src, i);
    var m := CopiedTo(mem, dst, src, i);
    LoadPart(m, src + i, 1, 0, 1);
    SaveHere(m, dst + i, Load(m, src + i, 1));
    CopyOverByte(Load, Save, mem, dst, src, n, i);
  }

  /** The bytes of a new message's two blocks do not depend on what was there. */
  lemma NewIsFixed(mem: seq<Byte>, mem': seq<Byte>, q: nat, c: nat, a: nat)
    requires |mem| == |mem'| == HEAP_END - HEAP_START
    requires InRegion(q, 64) && InRegion(c, 64) && ClassOf(q) == 0 && ClassOf(c) == 0
    requires Apart(q, 64, c, 64) && (q <= a < q + 64 || c <= a < c + 64)
    ensures Load(NewMessage(mem, q, c), a, 1) == Load(NewMessage(mem', q, c), a, 1)
  {
    var z, h := Zeros(64), Header(c, 0, 0);
    WipedIs(mem, q);
    WipedIs(mem', q);
    WipedIs(Save(mem, q, z), c);
    WipedIs(Save(mem', q, z), c);
    if q <= a < q + 64 { SameBehind(mem, mem', q, z, a); }
    SameAfter(Save(mem, q, z), Save(mem', q, z), c, z, a);
    SameAfter(Save(Save(mem, q, z), c, z), Save(Save(mem', q, z), c, z), q, h, a);
  }

  lemma SameBehind(mem: seq<Byte>, mem': seq<Byte>, at: nat, data: Body, a: nat)
    requires |mem| == |mem'| && Inside(mem, at, |data|) && at <= a < at + |data|
    ensures Load(Save(mem, at, data), a, 1) == Load(Save(mem', at, data), a, 1)
  {
    SaveHere(mem, at, data);
    SaveHere(mem', at, data);
    LoadPart(Save(mem, at, data), at, |data|, a - at, 1);
    LoadPart(Save(mem', at, data), at, |data|, a - at, 1);
  }

  lemma SameAfter(mem: seq<Byte>, mem': seq<Byte>, at: nat, data: Body, a: nat)
    requires |mem| == |mem'| && Inside(mem, at, |data|)
    requires at <= a < at + |data| || Load(mem, a, 1) == Load(mem', a, 1)
    ensures Load(Save(mem, at, data), a, 1) == Load(Save(mem', at, data), a, 1)
  {
    if at <= a < at + |data| {
      SameBehind(mem, mem', at, data, a);
    } else {
      SaveApart(mem, at, data, a, 1);
      SaveApart(mem', at, data, a, 1);
    }
  }

  lemma CopyMadeIs(mem: seq<Byte>, p: nat, b: nat, data: Body, q: nat, c: nat, sum: Body -> Word)
    requires |mem| == HEAP_END - HEAP_START && Placed(p, b, |data|, q, c) && Holds(mem, p, b, data) && |data| > 0
    ensures BodyPtr(NewMessage(mem, q, c), q) == c && BodyLen(NewMessage(mem, q, c), q) == 0
    ensures CopyMade(mem, p, q, c, sum)
            == WriteHeader(CopiedTo(NewMessage(mem, q, c), c, b, |data|), q, |data|, sum)
  {
    SourceNamed(mem, p, b, data, q, c);
    NewHolds(mem, q, c);
    FilledIs(NewMessage(mem, q, c), p, b, |data|, q, c, sum);
  }

  lemma FilledIs(m: seq<Byte>, p: nat, b: nat, n: nat, q: nat, c: nat, sum: Body -> Word)
    requires BodyPtr(m, p) == b && BodyLen(m, p) == n <= BODY_SIZE && BodyPtr(m, q) == c && BodyLen(m, q) == 0
    ensures FilledFrom(m, q, p, sum) == WriteHeader(CopiedTo(m, c, b, n), q, n, sum)
  {
    AppendFromIs(m, q, b, n, sum);
  }

  lemma HeaderSurvives(mem: seq<Byte>, q: nat, c: nat, b: nat, n: nat)
    requires Apart(q, 64, c, n)
    ensures BodyPtr(CopiedTo(mem, c, b, n), q) == BodyPtr(mem, q)
    ensures BodyLen(CopiedTo(mem, c, b, n), q) == BodyLen(mem, q)
  {
    CopyElsewhere(mem, c, b, n, q, 4);
    CopyElsewhere(mem, c, b, n, q + 4, 4);
  }

  /** A copy reads as the bytes that the copying left in its block and behind. */
  lemma CopyReads(mem: seq<Byte>, p: nat, b: nat, data: Body, q: nat, c: nat, sum: Body -> Word)
    requires |mem| == HEAP_END - HEAP_START && Placed(p, b, |data|, q, c) && Holds(mem, p, b, data) && |data| > 0
    ensures BodyAt(CopyMade(mem, p, q, c, sum), q) == Load(CopiedTo(NewMessage(mem, q, c), c, b, |data|), c, |data|)
  {
    CopyMadeIs(mem, p, b, data, q, c, sum);
    HeaderSurvives(NewMessage(mem, q, c), q, c, b, |data|);
    CopyOverSize(NewMessage(mem, q, c), c, b, |data|);
    HeaderConcludes(CopiedTo(NewMessage(mem, q, c), c, b, |data|), q, c, |data|, sum);
  }

  lemma HeaderConcludes(mem: seq<Byte>, q: nat, c: nat, n: nat, sum: Body -> Word)
    requires |mem| == HEAP_END - HEAP_START && InRegion(q, 64) && InRegion(c, n) && Apart(q, 64, c, n) && n <= BODY_SIZE
    requires BodyPtr(mem, q) == c && BodyLen(mem, q) == 0
    ensures BodyAt(WriteHeader(mem, q, n, sum), q) == Load(mem, c, n)
  {
    var body := Load(mem, c, n);
    LoadPart(mem, c, n, 0, n);
    WriteLengthHolds(mem, q, c, 0, body, n);
    WriteSumHolds(WriteLength(mem, q, n), q, c, body, sum);
  }

  lemma ByteOf(mem: seq<Byte>, a: nat, body: Body, n: nat, i: nat)
    requires body == Load(mem, a, n) && Inside(mem, a, n) && i < n
    ensures |body| == n && [body[i]] == Load(mem, a + i, 1)
  {
    LoadPart(mem, a, n, i, 1);
  }

  /** Byte i is copied before its place is written. */
  lemma ByteInTime(mem: seq<Byte>, dst: nat, src: nat, n: nat, i: nat, x: Body)
    requires i < n && Inside(mem, dst, n) && Inside(mem, src, n) && Apart(src + i, 1, dst, i)
    requires x == Load(CopiedTo(mem, dst, src, n), dst + i, 1)
    ensures x == Load(mem, src + i, 1)
  {
    CopyByte(mem, dst, src, n, i);
    CopyElsewhere(mem, dst, src, i, src + i, 1);
  }

  /** The byte that lies where the copy begins is copied after the first was written there. */
  lemma ByteTooLate(mem: seq<Byte>, dst: nat, src: nat, n: nat, x: Body)
    requires src < dst < src + n && Inside(mem, dst, n) && Inside(mem, src, n)
    requires x == Load(CopiedTo(mem, dst, src, n), dst + (dst - src), 1)
    ensures x == Load(mem, src, 1)
  {
    CopyByte(mem, dst, src, n, dst - src);
    ByteInTime(mem, dst, src, dst - src, 0, x);
  }

  /** A copy whose byte i was read in time has what was there. */
  lemma FixedCopy(m: seq<Byte>, c: nat, b: nat, n: nat, copy: Body, data: Body, i: nat, v: Body)
    requires copy == Load(CopiedTo(m, c, b, n), c, n) && i < n && |data| == n
    requires |m| == HEAP_END - HEAP_START && InRegion(c, n) && InRegion(b, n) && Apart(b + i, 1, c, i)
    requires Load(m, b + i, 1) == v && [data[i]] != v
    ensures copy != data
  {
    CopyOverSize(m, c, b, n);
    ByteOf(CopiedTo(m, c, b, n), c, copy, n, i);
    ByteInTime(m, c, b, n, i, [copy[i]]);
  }

  /** A copy that runs into its own beginning repeats its first byte there. */
  lemma RepeatedCopy(m: seq<Byte>, c: nat, b: nat, n: nat, copy: Body, data: Body)
    requires copy == Load(CopiedTo(m, c, b, n), c, n) && b < c < b + n && |data| == n
    requires |m| == HEAP_END - HEAP_START && InRegion(c, n) && InRegion(b, n)
    requires Load(m, b, 1) == [data[0]] && data[c - b] != data[0]
    ensures copy != data
  {
    CopyOverSize(m, c, b, n);
    ByteOf(CopiedTo(m, c, b, n), c, copy, n, c - b);
    ByteTooLate(m, c, b, n, [copy[c - b]]);
  }

  lemma FirstByte(mem: seq<Byte>, b: nat, data: Body)
    requires data != [] && Inside(mem, b, |data|) && Load(mem, b, |data|) == data
    ensures Load(mem, b, 1) == [data[0]]
  {
    LoadPart(mem, b, |data|, 0, 1);
  }

  /** A memory with a given message in it. */
  lemma Stage(p: nat, b: nat, data: Body) returns (mem: seq<Byte>)
    requires InRegion(p, 64) && InRegion(b, |data|) && Apart(p, 64, b, |data|) && |data| <= BODY_SIZE
    ensures |mem| == HEAP_END - HEAP_START && Holds(mem, p, b, data)
  {
    var h := Header(b, |data|, 0);
    HeaderFields(b, |data|, 0);
    var m := Save(Zeros(HEAP_END - HEAP_START), p, h);
    SaveHere(Zeros(HEAP_END - HEAP_START), p, h);
    LoadPart(m, p, 24, 0, 4);
    LoadPart(m, p, 24, 4, 4);
    mem := Save(m, b, data);
    SaveApart(m, b, data, p, 4);
    SaveApart(m, b, data, p + 4, 4);
    SaveHere(m, b, data);
  }

  /** Every message of n bytes at b arrives as it was sent when its copy is made at q and c. */
  ghost predicate Arrives(p: nat, b: nat, n: nat, q: nat, c: nat, sum: Body -> Word) {
    forall mem, data :: |mem| == HEAP_END - HEAP_START && |data| == n && Holds(mem, p, b, data) ==>
      BodyAt(CopyMade(mem, p, q, c, sum), q) == data
  }

  lemma Refutes(mem: seq<Byte>, data: Body, p: nat, b: nat, n: nat, q: nat, c: nat, sum: Body -> Word)
    requires |mem| == HEAP_END - HEAP_START && |data| == n && Holds(mem, p, b, data)
    requires BodyAt(CopyMade(mem, p, q, c, sum), q) != data
    ensures !Arrives(p, b, n, q, c, sum)
  {}

  lemma DiffersAt(
      mem: seq<Byte>, p: nat, b: nat, data: Body, q: nat, c: nat, sum: Body -> Word, i: nat, v: Body)
    requires |mem| == HEAP_END - HEAP_START && Placed(p, b, |data|, q, c) && Holds(mem, p, b, data)
    requires i < |data| && Apart(b + i, 1, c, i) && Load(NewMessage(mem, q, c), b + i, 1) == v && [data[i]] != v
    ensures BodyAt(CopyMade(mem, p, q, c, sum), q) != data
  {
    CopyReads(mem, p, b, data, q, c, sum);
    FixedCopy(NewMessage(mem, q, c), c, b, |data|, BodyAt(CopyMade(mem, p, q, c, sum), q), data, i, v);
  }

  /** A body of n bytes that has none like v. */
  lemma Unlike(n: nat, v: Body) returns (data: Body)
    ensures |data| == n && forall i :: 0 <= i < n ==> [data[i]] != v
  {
    data := seq(n, _ => if v == [0] then 1 else 0);
  }

  /** A message whose byte i is not what a new message has there. */
  lemma StageUnlike(p: nat, b: nat, n: nat, q: nat, c: nat, i: nat) returns (mem: seq<Byte>, data: Body, v: Body)
    requires Placed(p, b, n, q, c) && i < n && (q <= b + i < q + 64 || c <= b + i < c + 64)
    ensures |mem| == HEAP_END - HEAP_START && |data| == n && Holds(mem, p, b, data)
    ensures Load(NewMessage(mem, q, c), b + i, 1) == v && [data[i]] != v
  {
    var blank := Zeros(HEAP_END - HEAP_START);
    v := Load(NewMessage(blank, q, c), b + i, 1);
    data := Unlike(n, v);
    mem := Stage(p, b, data);
    NewIsFixed(mem, blank, q, c, b + i);
  }

  /** If byte i of the source lies in one of the two blocks and its place is not copied over before
      its turn, the copy's byte does not depend on what was sent. */
  lemma FixedByteDiffers(p: nat, b: nat, n: nat, q: nat, c: nat, sum: Body -> Word, i: nat)
    requires Placed(p, b, n, q, c) && i < n && Apart(b + i, 1, c, i)
    requires q <= b + i < q + 64 || c <= b + i < c + 64
    ensures !Arrives(p, b, n, q, c, sum)
  {
    var mem, data, v := StageUnlike(p, b, n, q, c, i);
    DiffersAt(mem, p, b, data, q, c, sum, i, v);
    Refutes(mem, data, p, b, n, q, c, sum);
  }

  lemma DiffersBehind(mem: seq<Byte>, p: nat, b: nat, data: Body, q: nat, c: nat, sum: Body -> Word)
    requires |mem| == HEAP_END - HEAP_START && Placed(p, b, |data|, q, c) && Holds(mem, p, b, data)
    requires b < c < b + |data| && Load(NewMessage(mem, q, c), b, 1) == [data[0]] && data[c - b] != data[0]
    ensures BodyAt(CopyMade(mem, p, q, c, sum), q) != data
  {
    CopyReads(mem, p, b, data, q, c, sum);
    RepeatedCopy(NewMessage(mem, q, c), c, b, |data|, BodyAt(CopyMade(mem, p, q, c, sum), q), data);
  }

  /** If the copy runs into its own beginning, its byte there is its first one. */
  lemma RepeatedByteDiffers(p: nat, b: nat, n: nat, q: nat, c: nat, sum: Body -> Word)
    requires Placed(p, b, n, q, c) && b < c < b + n && ClearOf(b, 1, q, c)
    ensures !Arrives(p, b, n, q, c, sum)
  {
    var data := seq(n, k => if k == 0 then 1 else 0);
    var mem := Stage(p, b, data);
    NewElsewhere(mem, q, c, b, 1);
    FirstByte(mem, b, data);
    DiffersBehind(mem, p, b, data, q, c, sum);
    Refutes(mem, data, p, b, n, q, c, sum);
  }

  /** That is so exactly when the body is clear of the two blocks that the copy takes. */
  lemma ArrivesExactly(p: nat, b: nat, n: nat, q: nat, c: nat, sum: Body -> Word)
    requires Placed(p, b, n, q, c) && n > 0
    ensures Arrives(p, b, n, q, c, sum) <==> ClearOf(b, n, q, c)
  {
    if ClearOf(b, n, q, c) {
      forall mem, data | |mem| == HEAP_END - HEAP_START && |data| == n && Holds(mem, p, b, data)
        ensures BodyAt(CopyMade(mem, p, q, c, sum), q) == data
      {
        ClearArrives(mem, p, b, data, q, c, sum);
      }
    } else if !ClearOf(b, 1, q, c) {
      FixedByteDiffers(p, b, n, q, c, sum, 0);
    } else if b < q < b + n {
      FixedByteDiffers(p, b, n, q, c, sum, q - b);
    } else {
      RepeatedByteDiffers(p, b, n, q, c, sum);
    }
  }

  // --------------------------------------------------------- the first case that fails

  const FIRST: nat := 0x800000
  const SECOND: nat := 0x800040
  const THIRD: nat := 0x800080
  const FOURTH: nat := 0x8000C0

  /** What a heap with nothing handed out gives for two messages of at most 64 bytes: a header and
      a body block, and then another header and another body block. */
  ghost predicate FirstFour(p: nat, b: nat, q: nat, c: nat) {
    && IsFirstFree(p, {}) && IsFirstFree(b, {p}) && IsFirstFree(q, {p, b}) && IsFirstFree(c, {p, b, q})
    && ClassOf(p) == 0 && ClassOf(b) == 0 && ClassOf(q) == 0 && ClassOf(c) == 0
  }

  lemma FirstBlocks(p: nat, b: nat, q: nat, c: nat)
    requires FirstFour(p, b, q, c)
    ensures p == FIRST && b == SECOND && q == THIRD && c == FOURTH
  {
    assert Address(0) == FIRST && Address(1) == SECOND && Address(2) == THIRD && Address(3) == FOURTH;
    FirstFreeIs(p, {}, 0);
    FirstFreeIs(b, {p}, 1);
    FirstFreeIs(q, {p, b}, 2);
    FirstFreeIs(c, {p, b, q}, 3);
  }

  lemma HeaderStart(b: nat, len: nat, sum: nat)
    ensures Header(b, len, sum)[0..1] == [b % 256]
  {}

  /** A new message behind a body of 65 bytes overwrites the last of them. */
  lemma NextHeaderOverwrites(mem: seq<Byte>, data: Body)
    requires |mem| == HEAP_END - HEAP_START && |data| == 65 && Holds(mem, FIRST, SECOND, data)
    ensures BodyAt(NewMessage(mem, THIRD, FOURTH), FIRST) == data[..64] + [0xC0]
  {
    var m0 := mem;
    var m1 := Wiped(m0, THIRD);
    var m2 := Wiped(m1, FOURTH);
    var h := Header(FOURTH, 0, 0);
    var m3 := Save(m2, THIRD, h);
    BytesPart(mem, SECOND - HEAP_START, 65, 0, 64);
    SaveStores(m0, THIRD, Zeros(64));
    LaidOutApart(Load, m0, m1, FIRST, SECOND, 65, data[..64], THIRD, Zeros(64));
    SaveStores(m1, FOURTH, Zeros(64));
    LaidOutApart(Load, m1, m2, FIRST, SECOND, 65, data[..64], FOURTH, Zeros(64));
    SaveStores(m2, THIRD, h);
    LaidOutApart(Load, m2, m3, FIRST, SECOND, 65, data[..64], THIRD, h);
    LoadJoin(m3, SECOND, 64, 1);
    LoadPart(m3, THIRD, 24, 0, 1);
    HeaderStart(FOURTH, 0, 0);
  }

  lemma LongCopy(mem: seq<Byte>, data: Body, sum: Body -> Word)
    requires |mem| == HEAP_END - HEAP_START && |data| == 65 && Holds(mem, FIRST, SECOND, data)
    ensures BodyAt(CopyMade(mem, FIRST, THIRD, FOURTH, sum), THIRD) == data[..64] + [0xC0]
  {
    var m, seen := NewMessage(mem, THIRD, FOURTH), data[..64] + [0xC0];
    SourceNamed(mem, FIRST, SECOND, data, THIRD, FOURTH);
    NextHeaderOverwrites(mem, data);
    NewHolds(mem, THIRD, FOURTH);
    ForwardAppend(m, THIRD, SECOND, 65, sum);
    AppendHolds(m, THIRD, FOURTH, [], seen, sum);
    assert [] + seen == seen;
  }

  /** In an empty heap: a message of 65 bytes, then a copy of it. The copy's header takes the
      source's last byte, and the copy is not what was appended unless that byte happened to be
      the same. */
  lemma LongCopyDiffers(mem: seq<Byte>, data: Body, sum: Body -> Word, p: nat, b: nat, q: nat, c: nat)
    requires |mem| == HEAP_END - HEAP_START && |data| == 65 && FirstFour(p, b, q, c)
    ensures var source := Appended(NewMessage(mem, p, b), p, data, sum);
            var copy := BodyAt(CopyMade(source, p, q, c, sum), q);
            BodyAt(source, p) == data && copy == data[..64] + [0xC0] && (copy == data <==> data[64] == 0xC0)
  {
    FirstBlocks(p, b, q, c);
    NewBody(mem, FIRST, SECOND, data, sum);
    var source := Appended(NewMessage(mem, FIRST, SECOND), FIRST, data, sum);
    LongCopy(source, data, sum);
    LastByte(data, BodyAt(CopyMade(source, FIRST, THIRD, FOURTH, sum), THIRD));
  }

  lemma LastByte(data: Body, copy: Body)
    requires |data| == 65 && copy == data[..64] + [0xC0]
    ensures copy == data <==> data[64] == 0xC0
  {
    assert data == data[..64] + [data[64]];
  }
}
