/** Messages in a memory, whatever the memory is: all that is used of it is that a write can be
    read back and leaves everything apart from it as it was. */
module NngLayout {
  import opened Widths
  import opened Records
  import opened NngSpec

  predicate Apart(a: nat, m: nat, b: nat, n: nat) { a + m <= b || b + n <= a }

  /** m' is m with `data` written at a. */
  ghost predicate Stored<M>(load: (M, nat, nat) -> Body, m: M, a: nat, data: Body, m': M) {
    && load(m', a, |data|) == data
    && forall addr: nat, n: nat :: Apart(addr, n, a, |data|) ==> load(m', addr, n) == load(m, addr, n)
  }

  /** The header at p points to b and gives the length n, and `body` is at b. */
  ghost predicate LaidOut<M>(load: (M, nat, nat) -> Body, m: M, p: nat, b: nat, n: nat, body: Body) {
    Value(load(m, p, 4)) == b && Value(load(m, p + 4, 4)) == n && load(m, b, |body|) == body
  }

  /** Writes elsewhere leave a message alone. */
  lemma LaidOutApart<M>(
      load: (M, nat, nat) -> Body, m: M, m': M, p: nat, b: nat, n: nat, body: Body, a: nat, data: Body)
    requires LaidOut(load, m, p, b, n, body) && Stored(load, m, a, data, m')
    requires Apart(p, 8, a, |data|) && Apart(b, |body|, a, |data|)
    ensures LaidOut(load, m', p, b, n, body)
  {}

  lemma BodyGrows<M>(load: (M, nat, nat) -> Body, m: M, m': M, p: nat, b: nat, n: nat, body: Body, data: Body)
    requires LaidOut(load, m, p, b, n, body) && Stored(load, m, b + |body|, data, m')
    requires load(m', b, |body| + |data|) == load(m', b, |body|) + load(m', b + |body|, |data|)
    requires Apart(p, 8, b, |body| + |data|)
    ensures LaidOut(load, m', p, b, n, body + data)
  {
    assert load(m', b, |body|) == body;
    assert load(m', p, 4) == load(m, p, 4) && load(m', p + 4, 4) == load(m, p + 4, 4);
  }

  lemma LengthChanges<M>(load: (M, nat, nat) -> Body, m: M, m': M, p: nat, b: nat, n: nat, h: Body, body: Body)
    requires LaidOut(load, m, p, b, n, body) && Stored(load, m, p + 4, h, m') && |h| == 4
    requires Apart(p, 8, b, |body|)
    ensures LaidOut(load, m', p, b, Value(h), body)
  {
    assert load(m', p, 4) == load(m, p, 4) && load(m', b, |body|) == load(m, b, |body|);
  }

  /** A copy of n bytes, one at a time from the front. */
  function CopyOver<M>(load: (M, nat, nat) -> Body, save: (M, nat, Body) -> M, m: M, dst: nat, src: nat, n: nat): M {
    if n == 0 then m
    else
      var m' := CopyOver(load, save, m, dst, src, n - 1);
      save(m', dst + n - 1, load(m', src + n - 1, 1))
  }

  /** Where k bytes have been copied, one more byte makes it k + 1. */
  ghost predicate CopiesNext<M>(load: (M, nat, nat) -> Body, save: (M, nat, Body) -> M, m: M, dst: nat, src: nat, k: nat) {
    var m' := save(m, dst, load(m, src, k));
    save(m', dst + k, load(m', src + k, 1)) == save(m, dst, load(m, src, k + 1))
  }

  lemma {:induction false} CopyOverIs<M>(
      load: (M, nat, nat) -> Body, save: (M, nat, Body) -> M, m: M, dst: nat, src: nat, n: nat)
    requires save(m, dst, load(m, src, 0)) == m && forall k :: 0 <= k < n ==> CopiesNext(load, save, m, dst, src, k)
    ensures CopyOver(load, save, m, dst, src, n) == save(m, dst, load(m, src, n))
  {
    if n > 0 {
      CopyOverIs(load, save, m, dst, src, n - 1);
      assert CopiesNext(load, save, m, dst, src, n - 1);
    }
  }

  /** A write is not seen elsewhere, and one byte is at most one. */
  ghost predicate Local<M(!new)>(load: (M, nat, nat) -> Body, save: (M, nat, Body) -> M) {
    && (forall m, a: nat, data, addr: nat, n: nat {:trigger load(save(m, a, data), addr, n)} ::
          Apart(addr, n, a, |data|) ==> load(save(m, a, data), addr, n) == load(m, addr, n))
    && forall m, a: nat {:trigger load(m, a, 1)} :: |load(m, a, 1)| <= 1
  }

  /** Bytes outside what has been copied so far are as they were. */
  lemma {:induction false} CopyOverElsewhere<M(!new)>(
      load: (M, nat, nat) -> Body, save: (M, nat, Body) -> M, m: M, dst: nat, src: nat, k: nat, a: nat, n: nat)
    requires Local(load, save) && Apart(a, n, dst, k)
    ensures load(CopyOver(load, save, m, dst, src, k), a, n) == load(m, a, n)
  {
    if k > 0 {
      CopyOverElsewhere(load, save, m, dst, src, k - 1, a, n);
      var m' := CopyOver(load, save, m, dst, src, k - 1);
      assert |load(m', src + k - 1, 1)| <= 1;
    }
  }

  /** Byte i of a copy is what byte i of the source was when its turn came. */
  lemma {:induction false} CopyOverByte<M(!new)>(
      load: (M, nat, nat) -> Body, save: (M, nat, Body) -> M, m: M, dst: nat, src: nat, n: nat, i: nat)
    requires Local(load, save) && i < n
    requires var m' := CopyOver(load, save, m, dst, src, i);
             load(save(m', dst + i, load(m', src + i, 1)), dst + i, 1) == load(m', src + i, 1)
    ensures load(CopyOver(load, save, m, dst, src, n), dst + i, 1)
            == load(CopyOver(load, save, m, dst, src, i), src + i, 1)
  {
    if i < n - 1 {
      CopyOverByte(load, save, m, dst, src, n - 1, i);
      var m' := CopyOver(load, save, m, dst, src, n - 1);
      assert |load(m', src + n - 1, 1)| <= 1;
    }
  }
}

/** Messages as bytes of the heap: a header that points to the body, and the body. */
module NngMemory {
  import opened Widths
  import opened Records
  import opened Memory
  import opened Heaps
  import opened NngSpec
  import opened NngLayout

  // -------------------------------------------------------------- what the code does

  /** A stretch of the heap. */
  predicate Inside(mem: seq<Byte>, a: nat, n: nat) { HEAP_START <= a && a + n <= HEAP_START + |mem| }

  function WordIn(mem: seq<Byte>, a: nat): nat { Value(Load(mem, a, 4)) }

  function BodyPtr(mem: seq<Byte>, p: nat): nat { WordIn(mem, p) }

  function BodyLen(mem: seq<Byte>, p: nat): nat { WordIn(mem, p + 4) }

  /** The body of the message at p, found through its header. */
  function BodyAt(mem: seq<Byte>, p: nat): Body { Load(mem, BodyPtr(mem, p), BodyLen(mem, p)) }

  /** A header: body, body length, three unused words, checksum. */
  function Header(b: nat, len: nat, sum: nat): (h: seq<Byte>)
    ensures |h| == 24
  {
    Le(b, 4) + Le(len, 4) + Zeros(12) + Le(sum, 4)
  }

  /** A new message with its header at p and its body at b. */
  function NewMessage(mem: seq<Byte>, p: nat, b: nat): (m: seq<Byte>)
    ensures |m| == |mem|
  {
    Save(Wiped(Wiped(mem, p), b), p, Header(b, 0, 0))
  }

  function AppendCode(mem: seq<Byte>, p: nat, n: nat): int {
    if BodyLen(mem, p) + n > BODY_SIZE then ENOMEM else OK
  }

  function WriteBody(mem: seq<Byte>, p: nat, data: Body): (m: seq<Byte>)
    ensures |m| == |mem|
  {
    Save(mem, BodyPtr(mem, p) + BodyLen(mem, p), data)
  }

  function WriteLength(mem: seq<Byte>, p: nat, more: nat): (m: seq<Byte>)
    ensures |m| == |mem|
  {
    Save(mem, p + 4, Le(BodyLen(mem, p) + more, 4))
  }

  function WriteSum(mem: seq<Byte>, p: nat, sum: Body -> Word): (m: seq<Byte>)
    ensures |m| == |mem|
  {
    Save(mem, p + 20, Le(sum(BodyAt(mem, p)), 4))
  }

  function WriteHeader(mem: seq<Byte>, p: nat, more: nat, sum: Body -> Word): (m: seq<Byte>)
    ensures |m| == |mem|
  {
    WriteSum(WriteLength(mem, p, more), p, sum)
  }

  /** An append: the bytes, then the length, then the checksum of the whole body. The header is
      read again behind each write, as it may have been written over. */
  function Appended(mem: seq<Byte>, p: nat, data: Body, sum: Body -> Word): (m: seq<Byte>)
    ensures |m| == |mem|
  {
    if AppendCode(mem, p, |data|) != OK then mem
    else WriteHeader(WriteBody(mem, p, data), p, |data|, sum)
  }

  /** An append of n bytes that are in the heap already. */
  function AppendedFrom(mem: seq<Byte>, p: nat, src: nat, n: nat, sum: Body -> Word): seq<Byte> {
    if AppendCode(mem, p, n) != OK then mem
    else WriteHeader(CopiedTo(mem, BodyPtr(mem, p) + BodyLen(mem, p), src, n), p, n, sum)
  }

  lemma AppendFromIs(mem: seq<Byte>, p: nat, src: nat, n: nat, sum: Body -> Word)
    requires AppendCode(mem, p, n) == OK
    ensures AppendedFrom(mem, p, src, n, sum)
            == WriteHeader(CopiedTo(mem, BodyPtr(mem, p) + BodyLen(mem, p), src, n), p, n, sum)
  {}

  /** What the first k bytes of a copy within the heap leave. */
  function CopiedTo(mem: seq<Byte>, dst: nat, src: nat, k: nat): seq<Byte> { CopyOver(Load, Save, mem, dst, src, k) }

  lemma CopyStep(mem: seq<Byte>, dst: nat, src: nat, k: nat)
    ensures var m := CopiedTo(mem, dst, src, k); CopiedTo(mem, dst, src, k + 1) == Save(m, dst + k, Load(m, src + k, 1))
    ensures CopiedTo(mem, dst, src, 0) == mem
  {}

  lemma {:induction false} CopyOverSize(mem: seq<Byte>, dst: nat, src: nat, n: nat)
    ensures |CopiedTo(mem, dst, src, n)| == |mem|
  {
    if n > 0 { CopyOverSize(mem, dst, src, n - 1); }
  }

  lemma SaveTwice(mem: seq<Byte>, a: nat, x: Body, y: Body)
    requires Inside(mem, a, |x| + |y|)
    ensures Save(Save(mem, a, x), a + |x|, y) == Save(mem, a, x + y)
  {
    WrittenTwice(mem, a - HEAP_START, x, y);
  }

  lemma CopyNext(mem: seq<Byte>, dst: nat, src: nat, k: nat)
    requires Inside(mem, dst, k + 1) && Inside(mem, src, k + 1) && Apart(src + k, 1, dst, k)
    ensures CopiesNext(Load, Save, mem, dst, src, k)
  {
    var x, y := Load(mem, src, k), Load(mem, src + k, 1);
    LoadJoin(mem, src, k, 1);
    SaveApart(mem, dst, x, src + k, 1);
    assert |x| == k && |y| == 1;
    SaveTwice(mem, dst, x, y);
  }

  /** A copy from the front does not run into what it has written. */
  predicate Forward(src: nat, n: nat, dst: nat) { dst <= src || src + n <= dst }

  /** Such a copy writes what was there. */
  lemma ForwardCopy(mem: seq<Byte>, dst: nat, src: nat, n: nat)
    requires Inside(mem, dst, n) && Inside(mem, src, n) && Forward(src, n, dst)
    ensures CopiedTo(mem, dst, src, n) == Save(mem, dst, Load(mem, src, n))
  {
    forall k | 0 <= k < n ensures CopiesNext(Load, Save, mem, dst, src, k) { CopyNext(mem, dst, src, k); }
    assert Save(mem, dst, Load(mem, src, 0)) == mem;
    CopyOverIs(Load, Save, mem, dst, src, n);
  }

  lemma CopyIsWriteBody(mem: seq<Byte>, p: nat, src: nat, n: nat)
    requires var dst := BodyPtr(mem, p) + BodyLen(mem, p);
             Inside(mem, dst, n) && Inside(mem, src, n) && Forward(src, n, dst)
    ensures |Load(mem, src, n)| == n
    ensures CopiedTo(mem, BodyPtr(mem, p) + BodyLen(mem, p), src, n) == WriteBody(mem, p, Load(mem, src, n))
  {
    ForwardCopy(mem, BodyPtr(mem, p) + BodyLen(mem, p), src, n);
  }

  lemma ForwardAppend(mem: seq<Byte>, p: nat, src: nat, n: nat, sum: Body -> Word)
    requires var dst := BodyPtr(mem, p) + BodyLen(mem, p);
             Inside(mem, dst, n) && Inside(mem, src, n) && Forward(src, n, dst)
    ensures AppendedFrom(mem, p, src, n, sum) == Appended(mem, p, Load(mem, src, n), sum)
  {
    CopyIsWriteBody(mem, p, src, n);
  }

  // ------------------------------------------------------------- what the heap holds

  /** The message at p has its body at b, and the body is this one. */
  ghost predicate Holds(mem: seq<Byte>, p: nat, b: nat, body: Body) {
    LaidOut(Load, mem, p, b, |body|, body)
  }

  lemma SaveStores(mem: seq<Byte>, a: nat, data: Body)
    requires Inside(mem, a, |data|)
    ensures Stored(Load, mem, a, data, Save(mem, a, data))
  {
    SaveHere(mem, a, data);
    forall addr: nat, n: nat | Apart(addr, n, a, |data|)
      ensures Load(Save(mem, a, data), addr, n) == Load(mem, addr, n)
    {
      SaveApart(mem, a, data, addr, n);
    }
  }

  /** Writes elsewhere leave a message alone. */
  lemma HoldsApart(mem: seq<Byte>, p: nat, b: nat, body: Body, a: nat, data: Body)
    requires Holds(mem, p, b, body) && Inside(mem, a, |data|)
    requires Apart(p, 64, a, |data|) && Apart(b, |body|, a, |data|)
    ensures Holds(Save(mem, a, data), p, b, body)
  {
    SaveStores(mem, a, data);
    LaidOutApart(Load, mem, Save(mem, a, data), p, b, |body|, body, a, data);
  }

  lemma FirstTwo(x: Body, y: Body, z: Body, w: Body)
    requires |x| == 4 && |y| == 4
    ensures (x + y + z + w)[0..4] == x && (x + y + z + w)[4..8] == y
  {}

  lemma HeaderFields(b: nat, len: nat, sum: nat)
    requires b < 0x1_0000_0000 && len < 0x1_0000_0000
    ensures Value(Header(b, len, sum)[0..4]) == b && Value(Header(b, len, sum)[4..8]) == len
  {
    Spans();
    ValueOfLe(b, 4);
    ValueOfLe(len, 4);
    FirstTwo(Le(b, 4), Le(len, 4), Zeros(12), Le(sum, 4));
  }

  lemma LoadPart(mem: seq<Byte>, a: nat, n: nat, i: nat, m: nat)
    requires Inside(mem, a, n) && i + m <= n
    ensures |Load(mem, a, n)| == n && Load(mem, a + i, m) == Load(mem, a, n)[i..i + m]
  {
    BytesPart(mem, a - HEAP_START, n, i, m);
  }

  lemma HeaderWritten(mem: seq<Byte>, p: nat, b: nat, h: Body)
    requires Inside(mem, p, 64) && Inside(mem, b, 64)
    requires |h| == 24 && Value(h[0..4]) == b && Value(h[4..8]) == 0
    ensures Holds(Save(mem, p, h), p, b, [])
  {
    var m := Save(mem, p, h);
    SaveHere(mem, p, h);
    LoadPart(m, p, 24, 0, 4);
    LoadPart(m, p, 24, 4, 4);
  }

  lemma NewHolds(mem: seq<Byte>, p: nat, b: nat)
    requires Inside(mem, p, 64) && Inside(mem, b, 64) && b < 0x1_0000_0000
    ensures Holds(NewMessage(mem, p, b), p, b, [])
  {
    HeaderFields(b, 0, 0);
    HeaderWritten(Wiped(Wiped(mem, p), b), p, b, Header(b, 0, 0));
  }

  lemma SaveBodyHolds(mem: seq<Byte>, p: nat, b: nat, body: Body, data: Body)
    requires Holds(mem, p, b, body)
    requires Inside(mem, b, |body| + |data|) && Apart(p, 64, b, |body| + |data|)
    ensures LaidOut(Load, Save(mem, b + |body|, data), p, b, |body|, body + data)
  {
    SaveStores(mem, b + |body|, data);
    var m1 := Save(mem, b + |body|, data);
    LoadJoin(m1, b, |body|, |data|);
    BodyGrows(Load, mem, m1, p, b, |body|, body, data);
  }

  lemma WriteBodyHolds(mem: seq<Byte>, p: nat, b: nat, body: Body, data: Body)
    requires Holds(mem, p, b, body)
    requires Inside(mem, b, |body| + |data|) && Apart(p, 64, b, |body| + |data|)
    ensures LaidOut(Load, WriteBody(mem, p, data), p, b, |body|, body + data)
  {
    SaveBodyHolds(mem, p, b, body, data);
    assert WriteBody(mem, p, data) == Save(mem, b + |body|, data);
  }

  lemma SetLengthHolds(mem: seq<Byte>, p: nat, b: nat, n: nat, h: Body, body: Body)
    requires LaidOut(Load, mem, p, b, n, body) && Inside(mem, p, 64) && Apart(p, 64, b, |body|)
    requires |h| == 4 && Value(h) == |body|
    ensures Holds(Save(mem, p + 4, h), p, b, body)
  {
    SaveStores(mem, p + 4, h);
    LengthChanges(Load, mem, Save(mem, p + 4, h), p, b, n, h, body);
  }

  lemma WriteLengthHolds(mem: seq<Byte>, p: nat, b: nat, n: nat, body: Body, more: nat)
    requires LaidOut(Load, mem, p, b, n, body) && |body| == n + more < 0x1_0000_0000
    requires Inside(mem, p, 64) && Apart(p, 64, b, |body|)
    ensures Holds(WriteLength(mem, p, more), p, b, body)
  {
    Spans();
    ValueOfLe(|body|, 4);
    SetLengthHolds(mem, p, b, n, Le(|body|, 4), body);
  }

  lemma WriteSumHolds(mem: seq<Byte>, p: nat, b: nat, body: Body, sum: Body -> Word)
    requires Holds(mem, p, b, body) && Inside(mem, p, 64) && Apart(p, 64, b, |body|)
    ensures Holds(WriteSum(mem, p, sum), p, b, body)
  {
    var s := Le(sum(BodyAt(mem, p)), 4);
    SaveStores(mem, p + 20, s);
    LaidOutApart(Load, mem, Save(mem, p + 20, s), p, b, |body|, body, p + 20, s);
  }

  /** An append within the message's own block. */
  lemma AppendHolds(mem: seq<Byte>, p: nat, b: nat, body: Body, data: Body, sum: Body -> Word)
    requires Holds(mem, p, b, body) && |body| + |data| <= BODY_SIZE
    requires Inside(mem, p, 64) && Inside(mem, b, |body| + |data|) && Apart(p, 64, b, |body| + |data|)
    ensures AppendCode(mem, p, |data|) == OK && Holds(Appended(mem, p, data, sum), p, b, body + data)
  {
    WriteBodyHolds(mem, p, b, body, data);
    var m1 := WriteBody(mem, p, data);
    WriteLengthHolds(m1, p, b, |body|, body + data, |data|);
    WriteSumHolds(WriteLength(m1, p, |data|), p, b, body + data, sum);
  }

  lemma WriteBodyApart(mem: seq<Byte>, p: nat, data: Body, q: nat, c: nat, other: Body)
    requires Holds(mem, q, c, other) && Inside(mem, BodyPtr(mem, p), BodyLen(mem, p) + |data|)
    requires Apart(q, 64, BodyPtr(mem, p), BodyLen(mem, p) + |data|)
    requires Apart(c, |other|, BodyPtr(mem, p), BodyLen(mem, p) + |data|)
    ensures Holds(WriteBody(mem, p, data), q, c, other)
  {
    HoldsApart(mem, q, c, other, BodyPtr(mem, p) + BodyLen(mem, p), data);
  }

  /** The length and the checksum lie in the header's block, apart from every other message. */
  lemma WriteHeaderApart(mem: seq<Byte>, p: nat, more: nat, sum: Body -> Word, q: nat, c: nat, other: Body)
    requires Holds(mem, q, c, other) && Inside(mem, p, 64)
    requires Apart(q, 64, p, 64) && Apart(c, |other|, p, 64)
    ensures Holds(WriteLength(mem, p, more), q, c, other) && Holds(WriteSum(mem, p, sum), q, c, other)
  {
    HoldsApart(mem, q, c, other, p + 4, Le(BodyLen(mem, p) + more, 4));
    HoldsApart(mem, q, c, other, p + 20, Le(sum(BodyAt(mem, p)), 4));
  }

  /** A new message with a body, wherever its two blocks are: it reads as what was written. */
  lemma NewBody(mem: seq<Byte>, p: nat, b: nat, data: Body, sum: Body -> Word)
    requires Inside(mem, p, 64) && Inside(mem, b, 64) && Inside(mem, b, |data|) && b < 0x1_0000_0000
    requires |data| <= BODY_SIZE && Apart(p, 64, b, |data|)
    ensures var m := Appended(NewMessage(mem, p, b), p, data, sum); Holds(m, p, b, data) && BodyAt(m, p) == data
  {
    NewHolds(mem, p, b);
    AppendHolds(NewMessage(mem, p, b), p, b, [], data, sum);
    assert [] + data == data;
  }

  /** An append writes within its own body and header only, as long as it stays in its block. */
  lemma AppendApart(mem: seq<Byte>, p: nat, b: nat, body: Body, data: Body, sum: Body -> Word, q: nat, c: nat, other: Body)
    requires Holds(mem, p, b, body) && |body| + |data| <= BODY_SIZE
    requires Inside(mem, p, 64) && Inside(mem, b, |body| + |data|)
    requires Holds(mem, q, c, other)
    requires Apart(q, 64, p, 64) && Apart(q, 64, b, |body| + |data|)
    requires Apart(c, |other|, p, 64) && Apart(c, |other|, b, |body| + |data|)
    ensures Holds(Appended(mem, p, data, sum), q, c, other)
  {
    WriteBodyApart(mem, p, data, q, c, other);
    var m1 := WriteBody(mem, p, data);
    WriteHeaderApart(m1, p, |data|, sum, q, c, other);
    var m2 := WriteLength(m1, p, |data|);
    WriteHeaderApart(m2, p, |data|, sum, q, c, other);
  }
}
