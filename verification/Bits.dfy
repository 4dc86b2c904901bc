/** Single bits of 32-bit words. */
module Bits {
  predicate Bit(w: bv32, b: nat) {
    b < 32 && w & (1 << b) != 0
  }

  /** w' is w with bit b set (on) or cleared (!on). */
  ghost predicate IsWrite<T>(bit: (T, nat) -> bool, w: T, b: nat, on: bool, w': T) {
    bit(w', b) == on && forall c: nat :: c < 32 && c != b ==> bit(w', c) == bit(w, c)
  }

  lemma SetWordAt(w: bv32, b: nat, c: nat)
    requires b < 32 && c < 32
    ensures (w | (1 << b)) & (1 << c) != 0 <==> b == c || w & (1 << c) != 0
  {}

  lemma MasksDisjoint(b: nat, c: nat)
    requires b < 32 && c < 32 && b != c
    ensures (1 as bv32 << b) & (1 << c) == 0
  {}

  lemma ClearApart(w: bv32, m: bv32, n: bv32)
    requires m & n == 0
    ensures (w & !m) & n == w & n
  {}

  lemma ClearSame(w: bv32, m: bv32)
    ensures (w & !m) & m == 0
  {}

  lemma SetWord(w: bv32, b: nat)
    requires b < 32
    ensures IsWrite(Bit, w, b, true, w | (1 << b))
  {
    var w' := w | (1 << b);
    forall c: nat | c < 32 ensures Bit(w', c) == (c == b || Bit(w, c)) {
      SetWordAt(w, b, c);
    }
  }

  lemma ClearedHere(w: bv32, w': bv32, b: nat)
    requires b < 32 && w' == w & !(1 << b)
    ensures !Bit(w', b)
  {
    ClearSame(w, 1 << b);
  }

  lemma ClearedMask(w: bv32, b: nat, c: nat)
    requires b < 32 && c < 32 && c != b
    ensures (w & !(1 << b)) & (1 << c) == w & (1 << c)
  {
    MasksDisjoint(b, c);
    ClearApart(w, 1 << b, 1 << c);
  }

  lemma ClearedOther(w: bv32, b: nat, w': bv32, c: nat)
    requires b < 32 && w' == w & !(1 << b) && c < 32 && c != b
    ensures Bit(w', c) == Bit(w, c)
  {
    ClearedMask(w, b, c);
  }

  lemma ClearWord(w: bv32, b: nat, w': bv32)
    requires b < 32 && w' == w & !(1 << b)
    ensures IsWrite(Bit, w, b, false, w')
  {
    ClearedHere(w, w', b);
    forall c: nat | c < 32 && c != b ensures Bit(w', c) == Bit(w, c) {
      ClearedOther(w, b, w', c);
    }
  }

  method ClearIn(w: bv32, b: nat) returns (w': bv32)
    requires b < 32
    ensures IsWrite(Bit, w, b, false, w')
  {
    w' := w & !(1 << b);
    ClearWord(w, b, w');
  }

  lemma ZeroWord()
    ensures forall b: nat :: !Bit(0, b)
  {
    forall b: nat ensures !Bit(0, b) {
      if b < 32 { assert 0 as bv32 & (1 << b) == 0; }
    }
  }
}
