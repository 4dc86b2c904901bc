/** Iteration and folding over functions given as arguments: the algebra of the CRC
    without its bit operations. */
module Folding {

  function Iterate<T>(f: T -> T, x: T, n: nat): T
    decreases n
  {
    if n == 0 then x else f(Iterate(f, x, n - 1))
  }

  /** Runs `clock` n times on a register, feeding it a word that `next` moves on. */
  function Feed<T>(clock: (T, T) -> T, next: T -> T, register: T, word: T, n: nat): T
    decreases n
  {
    if n == 0 then register else Feed(clock, next, clock(register, word), next(word), n - 1)
  }

  function Fold<S, B>(f: (S, B) -> S, s: S, data: seq<B>): S
    decreases |data|
  {
    if data == [] then s else f(Fold(f, s, data[..|data| - 1]), data[|data| - 1])
  }

  lemma {:induction false} IterateFront<T>(f: T -> T, x: T, n: nat)
    ensures Iterate(f, x, n + 1) == Iterate(f, f(x), n)
  {
    if n > 0 { IterateFront(f, x, n - 1); }
  }

  lemma {:induction false} IterateLinear<T(!new)>(f: T -> T, op: (T, T) -> T, x: T, y: T, n: nat)
    requires forall a, b :: f(op(a, b)) == op(f(a), f(b))
    ensures Iterate(f, op(x, y), n) == op(Iterate(f, x, n), Iterate(f, y, n))
  {
    if n > 0 { IterateLinear(f, op, x, y, n - 1); }
  }

  lemma {:induction false} IterateInjective<T(!new)>(f: T -> T, x: T, y: T, n: nat)
    requires forall a, b :: f(a) == f(b) ==> a == b
    requires Iterate(f, x, n) == Iterate(f, y, n)
    ensures x == y
  {
    if n > 0 { IterateInjective(f, x, y, n - 1); }
  }

  /** If one shift of `op(r, w)` is one clock of r beside the rest of w, then so are n. */
  lemma {:induction false} FeedIsIterate<T(!new)>(
      shift: T -> T, clock: (T, T) -> T, next: T -> T, op: (T, T) -> T, r: T, w: T, n: nat)
    requires forall a, b :: shift(op(a, b)) == op(clock(a, b), next(b))
    ensures Iterate(shift, op(r, w), n) == op(Feed(clock, next, r, w, n), Iterate(next, w, n))
    decreases n
  {
    if n > 0 {
      FeedIsIterate(shift, clock, next, op, clock(r, w), next(w), n - 1);
      IterateFront(shift, op(r, w), n - 1);
      IterateFront(next, w, n - 1);
    }
  }

  lemma {:induction false} FoldConcat<S, B>(f: (S, B) -> S, s: S, a: seq<B>, b: seq<B>)
    ensures Fold(f, s, a + b) == Fold(f, Fold(f, s, a), b)
    decreases |b|
  {
    if b == [] {
      assert a + b == a;
    } else {
      assert (a + b)[..|a + b| - 1] == a + b[..|b| - 1];
      FoldConcat(f, s, a, b[..|b| - 1]);
    }
  }

  lemma {:induction false} FoldInjective<S(!new), B(!new)>(f: (S, B) -> S, s: S, t: S, data: seq<B>)
    requires forall x, y, b :: f(x, b) == f(y, b) ==> x == y
    requires Fold(f, s, data) == Fold(f, t, data)
    ensures s == t
    decreases |data|
  {
    if data != [] { FoldInjective(f, s, t, data[..|data| - 1]); }
  }

  /** A fold whose step is injective in the state and in the datum tells apart two inputs
      that differ in one place. */
  lemma FoldTellsApart<S(!new), B(!new)>(
      f: (S, B) -> S, s: S, before: seq<B>, x: B, y: B, after: seq<B>)
    requires forall c, d, b :: f(c, b) == f(d, b) ==> c == d
    requires forall c, b, b' :: f(c, b) == f(c, b') ==> b == b'
    requires x != y
    ensures Fold(f, s, before + [x] + after) != Fold(f, s, before + [y] + after)
  {
    FoldConcat(f, s, before + [x], after);
    FoldConcat(f, s, before + [y], after);
    FoldSnoc(f, s, before, x);
    FoldSnoc(f, s, before, y);
    if Fold(f, s, before + [x] + after) == Fold(f, s, before + [y] + after) {
      FoldInjective(f, Fold(f, s, before + [x]), Fold(f, s, before + [y]), after);
    }
  }

  lemma FoldSnoc<S, B>(f: (S, B) -> S, s: S, data: seq<B>, b: B)
    ensures Fold(f, s, data + [b]) == f(Fold(f, s, data), b)
  {
    assert (data + [b])[..|data|] == data;
  }
}

/** CRC-32 as the kernel computes it, one table look-up a byte, and the bit-serial
    divider it has to agree with. */
module Crc {
  import opened Folding

  // ---------------------------------------------------------------- reference

  /** One clock of the reflected divider, fed the lowest bit of `word`. */
  function Clock(crc: bv32, word: bv32): bv32 {
    if (crc ^ word) & 1 == 1 then 0xEDB88320 ^ (crc >> 1) else crc >> 1
  }

  function Half(word: bv32): bv32 { word >> 1 }

  /** Divides in the eight bits of a byte, least significant first. */
  function DivideByte(crc: bv32, byte: bv8): bv32 {
    Feed(Clock, Half, crc, byte as bv32, 8)
  }

  /** The CRC of section 8 of RFC 1952: initial and final complement. */
  function Reference(data: seq<bv8>): bv32 {
    Fold(DivideByte, 0xFFFFFFFF, data) ^ 0xFFFFFFFF
  }

  lemma FourClocks(a: bv32, b: bv32, c: bv32, d: bv32, e: bv32)
    requires Clock(a, 0) == b && Clock(b, 0) == c && Clock(c, 0) == d && Clock(d, 0) == e
    ensures forall n: nat :: Feed(Clock, Half, a, 0, n + 4) == Feed(Clock, Half, e, 0, n)
  {
    assert Half(0) == 0;
    forall n: nat ensures Feed(Clock, Half, a, 0, n + 4) == Feed(Clock, Half, e, 0, n) {
      assert Feed(Clock, Half, a, 0, n + 4) == Feed(Clock, Half, b, 0, n + 3);
      assert Feed(Clock, Half, b, 0, n + 3) == Feed(Clock, Half, c, 0, n + 2);
      assert Feed(Clock, Half, c, 0, n + 2) == Feed(Clock, Half, d, 0, n + 1);
    }
  }

  /** The published value for a single zero byte. */
  lemma CheckValue()
    ensures Reference([0]) == 0xD202EF8D
  {
    FourClocks(0xFFFFFFFF, 0x92477CDF, 0xA49B3D4F, 0xBFF51D87, 0xB2420DE3);
    FourClocks(0xB2420DE3, 0xB49985D1, 0xB7F441C8, 0x5BFA20E4, 0x2DFD1072);
    assert Feed(Clock, Half, 0xFFFFFFFF, 0, 4 + 4) == Feed(Clock, Half, 0xB2420DE3, 0, 4);
    assert Feed(Clock, Half, 0xB2420DE3, 0, 0 + 4) == 0x2DFD1072;
    var zero: bv8 := 0;
    assert zero as bv32 == 0;
    var data: seq<bv8> := [0];
    assert data[..0] == [];
  }

  // ------------------------------------------------------------- shift algebra

  /** The inner loop body of the table construction. */
  function Shift(c: bv32): bv32 {
    if c & 1 == 1 then 0xEDB88320 ^ (c >> 1) else c >> 1
  }

  function Xor(x: bv32, y: bv32): bv32 { x ^ y }

  lemma Parity(x: bv32)
    ensures x & 1 == 0 || x & 1 == 1
  {}

  lemma ShiftLinearBothOdd(x: bv32, y: bv32)
    requires x & 1 == 1 && y & 1 == 1
    ensures Shift(Xor(x, y)) == Xor(Shift(x), Shift(y))
  {}

  lemma ShiftLinearOneOdd(x: bv32, y: bv32)
    requires x & 1 == 1 && y & 1 == 0
    ensures Shift(Xor(x, y)) == Xor(Shift(x), Shift(y))
  {}

  lemma XorCommutes(x: bv32, y: bv32)
    ensures Xor(x, y) == Xor(y, x)
  {}

  lemma ShiftLinearOtherOdd(x: bv32, y: bv32)
    requires x & 1 == 0 && y & 1 == 1
    ensures Shift(Xor(x, y)) == Xor(Shift(x), Shift(y))
  {
    ShiftLinearOneOdd(y, x);
    XorCommutes(x, y);
    XorCommutes(Shift(x), Shift(y));
  }

  lemma ShiftLinearBothEven(x: bv32, y: bv32)
    requires x & 1 == 0 && y & 1 == 0
    ensures Shift(Xor(x, y)) == Xor(Shift(x), Shift(y))
  {}

  /** The shift register is linear over exclusive-or. */
  lemma ShiftLinear()
    ensures forall x, y :: Shift(Xor(x, y)) == Xor(Shift(x), Shift(y))
  {
    forall x, y ensures Shift(Xor(x, y)) == Xor(Shift(x), Shift(y)) {
      Parity(x);
      Parity(y);
      if x & 1 == 1 {
        if y & 1 == 1 { ShiftLinearBothOdd(x, y); } else { ShiftLinearOneOdd(x, y); }
      } else {
        if y & 1 == 1 { ShiftLinearOtherOdd(x, y); } else { ShiftLinearBothEven(x, y); }
      }
    }
  }

  lemma ShiftInjectiveOdd(x: bv32, y: bv32)
    requires x & 1 == 1 && y & 1 == 1 && Shift(x) == Shift(y)
    ensures x == y
  {}

  lemma ShiftInjectiveEven(x: bv32, y: bv32)
    requires x & 1 == 0 && y & 1 == 0 && Shift(x) == Shift(y)
    ensures x == y
  {}

  lemma ShiftKeepsParityApart(x: bv32, y: bv32)
    requires x & 1 == 1 && y & 1 == 0
    ensures Shift(x) != Shift(y)
  {
    // the polynomial's top bit marks an odd predecessor
    assert Shift(x) & 0x80000000 != 0;
    assert Shift(y) & 0x80000000 == 0;
  }

  /** The register loses nothing: each state has one predecessor. */
  lemma ShiftInjective()
    ensures forall x, y :: Shift(x) == Shift(y) ==> x == y
  {
    forall x, y | Shift(x) == Shift(y) ensures x == y {
      Parity(x);
      Parity(y);
      if x & 1 == 1 {
        if y & 1 == 1 { ShiftInjectiveOdd(x, y); } else { ShiftKeepsParityApart(x, y); }
      } else {
        if y & 1 == 1 { ShiftKeepsParityApart(y, x); } else { ShiftInjectiveEven(x, y); }
      }
    }
  }

  lemma Unroll8(f: bv32 -> bv32, x: bv32)
    ensures Iterate(f, x, 8) == f(f(f(f(f(f(f(f(x))))))))
  {
    assert Iterate(f, x, 4) == f(f(f(f(x))));
    assert Iterate(f, x, 8) == f(f(f(f(Iterate(f, x, 4)))));
  }

  lemma ShiftEven(d: bv32)
    requires d & 1 == 0
    ensures Shift(d) == Half(d)
  {}

  lemma HalvedLow(d: bv32)
    requires d & 0xFF == 0
    ensures Half(Half(Half(Half(d)))) & 0xF == 0
    ensures Half(Half(Half(Half(Half(Half(Half(Half(d)))))))) == d >> 8
  {}

  lemma LowNibble(d: bv32)
    requires d & 0xF == 0
    ensures d & 1 == 0
    ensures Half(d) & 1 == 0
    ensures Half(Half(d)) & 1 == 0
    ensures Half(Half(Half(d))) & 1 == 0
  {}

  lemma FourShifts(d: bv32)
    requires d & 0xF == 0
    ensures Shift(Shift(Shift(Shift(d)))) == Half(Half(Half(Half(d))))
  {
    LowNibble(d);
    ShiftEven(d);
    ShiftEven(Half(d));
    ShiftEven(Half(Half(d)));
    ShiftEven(Half(Half(Half(d))));
  }

  /** Eight shifts of a word whose low byte is clear are one byte shift. */
  lemma ShiftHighPart(d: bv32)
    requires d & 0xFF == 0
    ensures Iterate(Shift, d, 8) == d >> 8
  {
    assert d & 0xF == 0;
    HalvedLow(d);
    FourShifts(d);
    FourShifts(Half(Half(Half(Half(d)))));
    Unroll8(Shift, d);
  }

  lemma HalvesOfByte(b: bv32)
    requires b & 0xFF == b
    ensures Iterate(Half, b, 8) == 0
  {
    Unroll8(Half, b);
    assert b >> 8 == 0;
  }

  lemma SplitWord(c: bv32)
    ensures c == Xor(c & 0xFF, c & 0xFFFFFF00)
    ensures (c & 0xFFFFFF00) & 0xFF == 0
    ensures (c & 0xFFFFFF00) >> 8 == c >> 8
  {}

  /** The table look-up performs eight shifts at once. */
  lemma TableStep(c: bv32)
    ensures Iterate(Shift, c, 8) == Xor(Iterate(Shift, c & 0xFF, 8), c >> 8)
  {
    SplitWord(c);
    ShiftLinear();
    IterateLinear(Shift, Xor, c & 0xFF, c & 0xFFFFFF00, 8);
    ShiftHighPart(c & 0xFFFFFF00);
  }

  // ------------------------------------------------- bit-serial = eight shifts

  lemma ClockIsShiftOdd(crc: bv32, b: bv32)
    requires (crc ^ b) & 1 == 1
    ensures Shift(Xor(crc, b)) == Xor(Clock(crc, b), Half(b))
  {}

  lemma ClockIsShiftEven(crc: bv32, b: bv32)
    requires (crc ^ b) & 1 == 0
    ensures Shift(Xor(crc, b)) == Xor(Clock(crc, b), Half(b))
  {}

  lemma ClockIsShift()
    ensures forall a, b :: Shift(Xor(a, b)) == Xor(Clock(a, b), Half(b))
  {
    forall a, b ensures Shift(Xor(a, b)) == Xor(Clock(a, b), Half(b)) {
      Parity(a ^ b);
      if (a ^ b) & 1 == 1 { ClockIsShiftOdd(a, b); } else { ClockIsShiftEven(a, b); }
    }
  }

  lemma LowByte(crc: bv32, byte: bv8)
    ensures (byte as bv32) & 0xFF == byte as bv32
    ensures Xor(crc, byte as bv32) >> 8 == crc >> 8
  {}

  lemma XorZero(x: bv32)
    ensures Xor(x, 0) == x
  {}

  lemma DivideByteIsShifts(crc: bv32, byte: bv8)
    ensures DivideByte(crc, byte) == Iterate(Shift, Xor(crc, byte as bv32), 8)
  {
    LowByte(crc, byte);
    ClockIsShift();
    FeedIsIterate(Shift, Clock, Half, Xor, crc, byte as bv32, 8);
    HalvesOfByte(byte as bv32);
    XorZero(DivideByte(crc, byte));
  }

  /** One iteration of the checksum loop is one byte of bit-serial division. */
  lemma ByteStep(crc: bv32, byte: bv8)
    ensures DivideByte(crc, byte)
            == Xor(Iterate(Shift, Xor(crc, byte as bv32) & 0xFF, 8), crc >> 8)
  {
    LowByte(crc, byte);
    DivideByteIsShifts(crc, byte);
    TableStep(Xor(crc, byte as bv32));
  }

  // ------------------------------------------------------------ the table code

  lemma WordAsIndex(x: bv32)
    ensures (x as nat) as bv32 == x
  {}

  lemma IndexInRange(x: bv32)
    requires x < 256
    ensures x as nat < 256
  {}

  lemma MaskedRange(c: bv32)
    ensures c & 0xFF < 256
  {}

  /** What one entry of the table must hold. */
  ghost predicate IsEntry(f: bv32 -> bv32, i: nat, c: bv32)
    requires i < 256
  {
    c == Iterate(f, i as bv32, 8)
  }

  method TableEntry(i: nat) returns (c: bv32)
    requires i < 256
    ensures IsEntry(Shift, i, c)
  {
    c := i as bv32;
    for j := 0 to 8
      invariant c == Iterate(Shift, i as bv32, j)
    {
      c := if c & 1 == 1 then 0xEDB88320 ^ (c >> 1) else c >> 1;
    }
  }

  class Checksummer {
    const table: array<bv32>

    ghost predicate Ready()
      reads table
    {
      table.Length == 256 && forall i :: 0 <= i < 256 ==> IsEntry(Shift, i, table[i])
    }

    constructor ()
      ensures Ready() && fresh(table)
    {
      var t := new bv32[256];
      for i := 0 to 256
        invariant forall k :: 0 <= k < i ==> IsEntry(Shift, k, t[k])
      {
        var c := TableEntry(i);
        t[i] := c;
      }
      table := t;
    }

    method LookUp(index: bv32) returns (c: bv32)
      requires Ready()
      ensures c == Iterate(Shift, index & 0xFF, 8)
    {
      var x := index & 0xFF;
      MaskedRange(index);
      WordAsIndex(x);
      IndexInRange(x);
      var i := x as nat;
      c := table[i];
      assert IsEntry(Shift, i, c);
    }

    method Advance(crc: bv32, byte: bv8) returns (next: bv32)
      requires Ready()
      ensures next == DivideByte(crc, byte)
    {
      ByteStep(crc, byte);
      var entry := LookUp(Xor(crc, byte as bv32));
      next := Xor(entry, crc >> 8);
    }

    /** The table-driven checksum is the CRC of RFC 1952, on every byte string. */
    method Checksum(data: seq<bv8>) returns (sum: bv32)
      requires Ready()
      ensures sum == Reference(data)
    {
      var crc: bv32 := 0xFFFFFFFF;
      for i := 0 to |data|
        invariant crc == Fold(DivideByte, 0xFFFFFFFF, data[..i])
      {
        assert data[..i + 1] == data[..i] + [data[i]];
        FoldSnoc(DivideByte, 0xFFFFFFFF, data[..i], data[i]);
        crc := Advance(crc, data[i]);
      }
      assert data[..|data|] == data;
      sum := crc ^ 0xFFFFFFFF;
    }
  }

  // ------------------------------------------------------- laws of the checksum

  /** The register composes over concatenation, so a message can be fed in pieces. */
  lemma ChecksumInPieces(a: seq<bv8>, b: seq<bv8>)
    ensures Reference(a + b) == Fold(DivideByte, Fold(DivideByte, 0xFFFFFFFF, a), b) ^ 0xFFFFFFFF
  {
    FoldConcat(DivideByte, 0xFFFFFFFF, a, b);
  }

  lemma XorCancel(c: bv32, d: bv32, x: bv8, y: bv8)
    ensures Xor(c, x as bv32) == Xor(c, y as bv32) ==> x == y
    ensures Xor(c, x as bv32) == Xor(d, x as bv32) ==> c == d
  {}

  lemma DivideByteInjective(c: bv32, d: bv32, x: bv8, y: bv8)
    requires DivideByte(c, x) == DivideByte(d, y)
    ensures c == d ==> x == y
    ensures x == y ==> c == d
  {
    DivideByteIsShifts(c, x);
    DivideByteIsShifts(d, y);
    ShiftInjective();
    IterateInjective(Shift, Xor(c, x as bv32), Xor(d, y as bv32), 8);
    XorCancel(c, d, x, y);
  }

  lemma DivideSameByteInjective()
    ensures forall c, d, b :: DivideByte(c, b) == DivideByte(d, b) ==> c == d
  {
    forall c, d, b | DivideByte(c, b) == DivideByte(d, b) ensures c == d {
      DivideByteInjective(c, d, b, b);
    }
  }

  lemma DivideOtherByteInjective()
    ensures forall c, x, y :: DivideByte(c, x) == DivideByte(c, y) ==> x == y
  {
    forall c, x, y | DivideByte(c, x) == DivideByte(c, y) ensures x == y {
      DivideByteInjective(c, c, x, y);
    }
  }

  lemma ComplementInjective(x: bv32, y: bv32)
    requires x ^ 0xFFFFFFFF == y ^ 0xFFFFFFFF
    ensures x == y
  {}

  /** Two messages that differ in exactly one byte never share a checksum. */
  lemma CorruptByteDetected(before: seq<bv8>, x: bv8, y: bv8, after: seq<bv8>)
    requires x != y
    ensures Reference(before + [x] + after) != Reference(before + [y] + after)
  {
    DivideSameByteInjective();
    DivideOtherByteInjective();
    FoldTellsApart(DivideByte, 0xFFFFFFFF, before, x, y, after);
    if Reference(before + [x] + after) == Reference(before + [y] + after) {
      ComplementInjective(Fold(DivideByte, 0xFFFFFFFF, before + [x] + after),
                          Fold(DivideByte, 0xFFFFFFFF, before + [y] + after));
    }
  }
}
