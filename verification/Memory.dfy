/** Stretches of memory: reading them and writing them. */
module Memory {

  function Bytes<B>(mem: seq<B>, addr: nat, n: nat): seq<B> {
    if addr + n <= |mem| then mem[addr..addr + n] else []
  }

  function Written<B>(mem: seq<B>, addr: nat, data: seq<B>): (m: seq<B>)
    ensures |m| == |mem|
    ensures addr + |data| <= |mem| ==> m[addr..addr + |data|] == data
    ensures forall i :: 0 <= i < |mem| && !(addr <= i < addr + |data|) ==> m[i] == mem[i]
  {
    if addr + |data| <= |mem| then mem[..addr] + data + mem[addr + |data|..] else mem
  }

  /** A write does not reach a stretch it does not overlap. */
  lemma WrittenApart<B>(mem: seq<B>, a: nat, data: seq<B>, addr: nat, n: nat)
    requires addr + n <= a || a + |data| <= addr
    ensures Bytes(Written(mem, a, data), addr, n) == Bytes(mem, addr, n)
  {}

  lemma WrittenHere<B>(mem: seq<B>, a: nat, data: seq<B>)
    requires a + |data| <= |mem|
    ensures Bytes(Written(mem, a, data), a, |data|) == data
  {}

  lemma BytesJoin<B>(mem: seq<B>, a: nat, m: nat, n: nat)
    requires a + m + n <= |mem|
    ensures Bytes(mem, a, m + n) == Bytes(mem, a, m) + Bytes(mem, a + m, n)
  {}

  lemma BytesPart<B>(mem: seq<B>, a: nat, n: nat, i: nat, m: nat)
    requires a + n <= |mem| && i + m <= n
    ensures |Bytes(mem, a, n)| == n
    ensures Bytes(mem, a + i, m) == Bytes(mem, a, n)[i..i + m]
  {
    var s := mem[a..a + n];
    assert |s| == n;
    var t, u := s[i..i + m], mem[a + i..a + i + m];
    forall k | 0 <= k < m ensures t[k] == u[k] {
      assert t[k] == s[i + k];
    }
  }

  /** Two writes side by side are one. */
  lemma WrittenTwice<B>(mem: seq<B>, a: nat, x: seq<B>, y: seq<B>)
    requires a + |x| + |y| <= |mem|
    ensures Written(Written(mem, a, x), a + |x|, y) == Written(mem, a, x + y)
  {}
}
