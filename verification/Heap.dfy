/** The kernel heap: four size classes of 32 blocks each, laid out once at boot. */
module Heaps {
  import opened Widths
  import opened Memory

  const HEAP_START: nat := 0x800000
  const HEAP_END: nat := 0x900000
  const CLASSES: nat := 4
  const PER_CLASS: nat := 32
  const MAX_ALLOC: nat := 4096

  datatype Block = Block(address: nat, size: nat, inUse: bool)

  function BlockSize(c: nat): nat
    requires c < CLASSES
  {
    [64, 256, 1024, 4096][c]
  }

  /** The offset of the first block of a class. */
  function ClassStart(c: nat): nat
    requires c <= CLASSES
  {
    [0, 2048, 10240, 43008, 174080][c]
  }

  /** Where block i of the heap (counted over all classes) begins. */
  function Address(i: nat): nat
    requires i < 128
  {
    HEAP_START + ClassStart(i / 32) + (i % 32) * BlockSize(i / 32)
  }

  /** The class an address of the heap lies in. */
  function ClassOf(a: nat): nat {
    if a < HEAP_START + 2048 then 0
    else if a < HEAP_START + 10240 then 1
    else if a < HEAP_START + 43008 then 2
    else 3
  }

  lemma AddressClass(i: nat)
    requires i < 128
    ensures ClassOf(Address(i)) == i / 32
    ensures HEAP_START <= Address(i) && Address(i) + BlockSize(i / 32) <= HEAP_END
  {}

  lemma AddressOrder(i: nat, j: nat)
    requires i < j < 128
    ensures Address(i) + BlockSize(i / 32) <= Address(j)
  {
    AddressClass(i);
    AddressClass(j);
  }

  /** Distinct blocks do not overlap. */
  lemma BlocksDisjoint(i: nat, j: nat)
    requires i < 128 && j < 128 && i != j
    ensures Address(i) + BlockSize(i / 32) <= Address(j) || Address(j) + BlockSize(j / 32) <= Address(i)
  {
    if i < j { AddressOrder(i, j); } else { AddressOrder(j, i); }
  }

  /** The smallest class whose blocks hold `size` bytes, or 4. */
  function SizeClass(size: nat): nat {
    if size <= 64 then 0 else if size <= 256 then 1 else if size <= 1024 then 2 else if size <= 4096 then 3 else 4
  }

  /** How many of the n blocks from `lo` on are in use. */
  function Taken(blocks: seq<Block>, lo: nat, n: nat): (r: nat)
    requires lo + n <= |blocks|
    ensures r <= n
  {
    if n == 0 then 0 else Taken(blocks, lo, n - 1) + if blocks[lo + n - 1].inUse then 1 else 0
  }

  lemma {:induction false} TakenUpdate(blocks: seq<Block>, lo: nat, n: nat, i: nat, use: bool)
    requires lo + n <= |blocks| && i < |blocks| && blocks[i].inUse != use
    ensures Taken(blocks[i := blocks[i].(inUse := use)], lo, n)
            == Taken(blocks, lo, n) + if !(lo <= i < lo + n) then 0 else if use then 1 else -1
  {
    if n > 0 { TakenUpdate(blocks, lo, n - 1, i, use); }
  }

  lemma {:induction false} TakenAll(blocks: seq<Block>, lo: nat, n: nat)
    requires lo + n <= |blocks|
    ensures Taken(blocks, lo, n) == n <==> forall i :: lo <= i < lo + n ==> blocks[i].inUse
    ensures (forall i :: lo <= i < lo + n ==> !blocks[i].inUse) ==> Taken(blocks, lo, n) == 0
  {
    if n > 0 { TakenAll(blocks, lo, n - 1); }
  }

  /** Each of the first k blocks lies where its index says. */
  ghost predicate Laid(blocks: seq<Block>, k: nat)
    requires k <= |blocks| <= 128
  {
    k == 0 || (Laid(blocks, k - 1) && blocks[k - 1].address == Address(k - 1)
               && blocks[k - 1].size == BlockSize((k - 1) / 32))
  }

  /** The addresses of those of the first k blocks that are in use. */
  ghost function Used(blocks: seq<Block>, k: nat): set<nat>
    requires k <= |blocks|
  {
    if k == 0 then {} else Used(blocks, k - 1) + if blocks[k - 1].inUse then {blocks[k - 1].address} else {}
  }

  lemma {:induction false} LaidAt(blocks: seq<Block>, k: nat, i: nat)
    requires i < k <= |blocks| <= 128 && Laid(blocks, k)
    ensures blocks[i].address == Address(i) && blocks[i].size == BlockSize(i / 32)
  {
    if i < k - 1 { LaidAt(blocks, k - 1, i); }
  }

  lemma {:induction false} LayOut(blocks: seq<Block>, k: nat)
    requires k <= |blocks| <= 128
    requires forall i :: 0 <= i < k ==> blocks[i] == Block(Address(i), BlockSize(i / 32), false)
    ensures Laid(blocks, k) && Used(blocks, k) == {}
  {
    if k > 0 { LayOut(blocks, k - 1); }
  }

  /** The blocks in use are those whose addresses are used. */
  lemma {:induction false} UsedBy(blocks: seq<Block>, k: nat, a: nat)
    requires k <= |blocks|
    ensures a in Used(blocks, k) <==> exists i :: 0 <= i < k && blocks[i].inUse && blocks[i].address == a
  {
    if k > 0 { UsedBy(blocks, k - 1, a); }
  }

  lemma UsedAt(blocks: seq<Block>, k: nat, i: nat)
    requires i < |blocks| <= 128 && k <= |blocks| && Laid(blocks, |blocks|)
    ensures blocks[i].address in Used(blocks, k) <==> i < k && blocks[i].inUse
  {
    var a := blocks[i].address;
    UsedBy(blocks, k, a);
    LaidAt(blocks, |blocks|, i);
    if a in Used(blocks, k) {
      var j :| 0 <= j < k && blocks[j].inUse && blocks[j].address == a;
      LaidAt(blocks, |blocks|, j);
      if i != j { BlocksDisjoint(i, j); }
    }
  }

  /** Blocks in use are live. */
  lemma AllTaken(blocks: seq<Block>, lo: nat, i: nat)
    requires |blocks| == 128 && lo <= i < 128 && Laid(blocks, |blocks|)
    requires forall k :: lo <= k < i ==> blocks[k].inUse
    ensures forall k: nat :: lo <= k < i ==> Address(k) in Used(blocks, |blocks|)
  {
    forall k: nat | lo <= k < i ensures Address(k) in Used(blocks, |blocks|) {
      UsedAt(blocks, |blocks|, k);
      LaidAt(blocks, |blocks|, k);
    }
  }

  /** No live block overlaps another. */
  lemma UsedApart(blocks: seq<Block>, a: nat, b: nat)
    requires |blocks| == 128 && Laid(blocks, |blocks|) && a in Used(blocks, |blocks|) && b in Used(blocks, |blocks|) && a != b
    ensures a + BlockSize(ClassOf(a)) <= b || b + BlockSize(ClassOf(b)) <= a
  {
    UsedBy(blocks, |blocks|, a);
    UsedBy(blocks, |blocks|, b);
    var i :| 0 <= i < 128 && blocks[i].inUse && blocks[i].address == a;
    var j :| 0 <= j < 128 && blocks[j].inUse && blocks[j].address == b;
    LaidAt(blocks, |blocks|, i);
    LaidAt(blocks, |blocks|, j);
    AddressClass(i);
    AddressClass(j);
    BlocksDisjoint(i, j);
  }

  lemma UsedInside(blocks: seq<Block>, a: nat)
    requires |blocks| == 128 && Laid(blocks, |blocks|) && a in Used(blocks, |blocks|)
    ensures HEAP_START <= a && a + BlockSize(ClassOf(a)) <= HEAP_END
  {
    UsedBy(blocks, |blocks|, a);
    var i :| 0 <= i < 128 && blocks[i].inUse && blocks[i].address == a;
    LaidAt(blocks, |blocks|, i);
    AddressClass(i);
  }

  predicate Clear(a: nat, b: nat) { a + BlockSize(ClassOf(a)) <= b || b + BlockSize(ClassOf(b)) <= a }

  predicate Within(a: nat) { HEAP_START <= a && a + BlockSize(ClassOf(a)) <= HEAP_END }

  /** Blocks that lie in the heap and do not overlap. */
  ghost predicate Tiles(used: set<nat>) {
    (forall a :: a in used ==> Within(a)) && forall a, b :: a in used && b in used && a != b ==> Clear(a, b)
  }

  lemma UsedTiles(blocks: seq<Block>)
    requires |blocks| == 128 && Laid(blocks, |blocks|)
    ensures Tiles(Used(blocks, |blocks|))
  {
    var used := Used(blocks, |blocks|);
    forall a | a in used ensures Within(a) {
      UsedInside(blocks, a);
    }
    forall a, b | a in used && b in used && a != b ensures Clear(a, b) {
      UsedApart(blocks, a, b);
    }
  }

  lemma {:induction false} LaidUpdate(blocks: seq<Block>, k: nat, i: nat, use: bool)
    requires i < |blocks| <= 128 && k <= |blocks| && Laid(blocks, k)
    ensures Laid(blocks[i := blocks[i].(inUse := use)], k)
  {
    if k > 0 { LaidUpdate(blocks, k - 1, i, use); }
  }

  lemma {:induction false} UsedUpdate(blocks: seq<Block>, k: nat, i: nat, use: bool)
    requires i < |blocks| <= 128 && k <= |blocks| && Laid(blocks, |blocks|)
    ensures var a, now := blocks[i].address, Used(blocks[i := blocks[i].(inUse := use)], k);
            now == if use && i < k then Used(blocks, k) + {a} else Used(blocks, k) - {a}
  {
    if k > 0 {
      UsedUpdate(blocks, k - 1, i, use);
      LaidAt(blocks, |blocks|, i);
      LaidAt(blocks, |blocks|, k - 1);
      if i != k - 1 { BlocksDisjoint(i, k - 1); }
    }
  }

  /** p is a block whose predecessors in its class have all been handed out. */
  ghost predicate IsFirstFree(p: nat, live: set<nat>) {
    p !in live && exists i: nat :: i < 128 && p == Address(i)
                                   && forall k: nat :: k < i && k / 32 == i / 32 ==> Address(k) in live
  }

  /** There is only one such block in a class. */
  lemma FirstFreeIs(p: nat, live: set<nat>, j: nat)
    requires j < 128 && IsFirstFree(p, live) && ClassOf(p) == j / 32
    requires Address(j) !in live && forall k: nat :: k < j && k / 32 == j / 32 ==> Address(k) in live
    ensures p == Address(j)
  {
    var i: nat :| i < 128 && p == Address(i) && forall k: nat :: k < i && k / 32 == i / 32 ==> Address(k) in live;
    AddressClass(i);
  }

  // -------------------------------------------------------------------- the bytes

  /** The n bytes at an address of the heap. */
  function Load(mem: seq<Byte>, a: nat, n: nat): seq<Byte> {
    if a < HEAP_START then [] else Bytes(mem, a - HEAP_START, n)
  }

  function Save(mem: seq<Byte>, a: nat, data: seq<Byte>): (m: seq<Byte>)
    ensures |m| == |mem|
  {
    if a < HEAP_START then mem else Written(mem, a - HEAP_START, data)
  }

  function Zeros(n: nat): seq<Byte> { seq(n, _ => 0) }

  /** A block with all its bytes cleared. */
  function Wiped(mem: seq<Byte>, a: nat): seq<Byte> { Save(mem, a, Zeros(BlockSize(ClassOf(a)))) }

  lemma SaveApart(mem: seq<Byte>, a: nat, data: seq<Byte>, addr: nat, n: nat)
    requires addr + n <= a || a + |data| <= addr
    ensures Load(Save(mem, a, data), addr, n) == Load(mem, addr, n)
  {
    if a >= HEAP_START && addr >= HEAP_START { WrittenApart(mem, a - HEAP_START, data, addr - HEAP_START, n); }
  }

  lemma SaveHere(mem: seq<Byte>, a: nat, data: seq<Byte>)
    requires HEAP_START <= a && a + |data| <= HEAP_START + |mem|
    ensures Load(Save(mem, a, data), a, |data|) == data
  {
    WrittenHere(mem, a - HEAP_START, data);
  }

  lemma LoadJoin(mem: seq<Byte>, a: nat, m: nat, n: nat)
    requires HEAP_START <= a && a + m + n <= HEAP_START + |mem|
    ensures Load(mem, a, m + n) == Load(mem, a, m) + Load(mem, a + m, n)
  {
    BytesJoin(mem, a - HEAP_START, m, n);
  }

  /** n bytes from the start of block i on stay clear of every other block exactly when the
      block holds them. (The last class is left out: behind its last block there is none.) */
  lemma ReachIff(i: nat, n: nat)
    requires i < 96
    ensures n <= BlockSize(i / 32) <==>
            forall j: nat {:trigger Address(j)} :: j < 128 && j != i ==>
              Address(i) + n <= Address(j) || Address(j) + BlockSize(j / 32) <= Address(i)
  {
    if n <= BlockSize(i / 32) {
      forall j: nat | j < 128 && j != i
        ensures Address(i) + n <= Address(j) || Address(j) + BlockSize(j / 32) <= Address(i)
      {
        BlocksDisjoint(i, j);
      }
    } else {
      NextBlock(i);
    }
  }

  /** Block i + 1 begins where block i ends. */
  lemma NextBlock(i: nat)
    requires i < 127
    ensures Address(i + 1) == Address(i) + BlockSize(i / 32)
  {}

  class Heap {
    var mem: seq<Byte>            // the bytes of the heap region
    const blocks: array<Block>
    ghost var live: set<nat>      // the addresses handed out and not returned

    ghost predicate Valid()
      reads this, blocks
    {
      |mem| == HEAP_END - HEAP_START && blocks.Length == 128 && Laid(blocks[..], blocks.Length) && live == Used(blocks[..], blocks.Length)
    }

    /** How many blocks of a class are free. */
    ghost function FreeIn(c: nat): (n: nat)
      requires Valid() && c < CLASSES
      reads this, blocks
    {
      32 - Taken(blocks[..], 32 * c, PER_CLASS)
    }

    constructor (memory: seq<Byte>)
      requires |memory| == HEAP_END - HEAP_START
      ensures Valid() && fresh(blocks) && live == {} && mem == memory
      ensures forall c :: 0 <= c < CLASSES ==> FreeIn(c) == 32
    {
      blocks := new Block[128](_ => Block(0, 0, false));
      mem := memory;
      live := {};
      new;
      var next := HEAP_START;
      var remaining := HEAP_END - HEAP_START;
      for c := 0 to CLASSES
        modifies blocks
        invariant next == HEAP_START + ClassStart(c) && remaining == HEAP_END - next
        invariant forall k :: 0 <= k < 32 * c ==> blocks[k] == Block(Address(k), BlockSize(k / 32), false)
      {
        for i := 0 to PER_CLASS
          modifies blocks
          invariant next == HEAP_START + ClassStart(c) + i * BlockSize(c) && remaining == HEAP_END - next
          invariant forall k :: 0 <= k < 32 * c + i ==> blocks[k] == Block(Address(k), BlockSize(k / 32), false)
        {
          var size := BlockSize(c);
          assert remaining >= size;
          blocks[32 * c + i] := Block(next, size, false);
          next := next + size;
          remaining := remaining - size;
        }
      }
      LayOut(blocks[..], blocks.Length);
      forall c: nat | c < CLASSES ensures Taken(blocks[..], 32 * c, PER_CLASS) == 0 {
        TakenAll(blocks[..], 32 * c, PER_CLASS);
      }
    }

    method FindSizeClass(size: nat) returns (c: int)
      ensures c == if SizeClass(size) < CLASSES then SizeClass(size) else -1
    {
      assert BlockSize(0) == 64 && BlockSize(1) == 256 && BlockSize(2) == 1024 && BlockSize(3) == 4096;
      for i := 0 to CLASSES
        invariant forall k :: 0 <= k < i ==> size > BlockSize(k)
      {
        if size <= BlockSize(i) { return i; }
      }
      return -1;
    }

    /** Hands out the first free block of the request's class, cleared, and 0 exactly when the
        request is empty or too large or that class is exhausted. */
    method Alloc(size: nat) returns (p: nat)
      requires Valid()
      modifies this, blocks
      ensures Valid()
      ensures p == 0 <==> size == 0 || size > MAX_ALLOC || old(FreeIn(SizeClass(size))) == 0
      ensures p == 0 ==> live == old(live) && mem == old(mem)
                         && forall c :: 0 <= c < CLASSES ==> FreeIn(c) == old(FreeIn(c))
      ensures p != 0 ==> IsFirstFree(p, old(live))
      ensures p != 0 ==> mem == Wiped(old(mem), p)
      ensures p != 0 ==> p !in old(live) && live == old(live) + {p} && ClassOf(p) == SizeClass(size)
                         && forall c :: 0 <= c < CLASSES ==>
                              FreeIn(c) == old(FreeIn(c)) - if c == ClassOf(p) then 1 else 0
    {
      if size == 0 { return 0; }
      if size > MAX_ALLOC { return 0; }
      var c := FindSizeClass(size);
      var i := FirstFree(c);
      if i < 0 { return 0; }
      AddressClass(i);
      LaidAt(blocks[..], blocks.Length, i);
      AllTaken(blocks[..], 32 * c, i);
      mem := Save(mem, blocks[i].address, Zeros(blocks[i].size));
      p := SetUse(i, true);
    }

    method FirstFree(c: nat) returns (i: int)
      requires Valid() && c < CLASSES
      ensures i == -1 <==> FreeIn(c) == 0
      ensures i != -1 ==> 32 * c <= i < 32 * c + 32 && !blocks[i].inUse
                          && forall k :: 32 * c <= k < i ==> blocks[k].inUse
    {
      TakenAll(blocks[..], 32 * c, PER_CLASS);
      for j := 32 * c to 32 * c + 32
        invariant forall k :: 32 * c <= k < j ==> blocks[..][k].inUse
      {
        if !blocks[j].inUse {
          assert !blocks[..][j].inUse;
          return j;
        }
      }
      return -1;
    }

    /** Flips the mark of one block. */
    method SetUse(i: nat, use: bool) returns (p: nat)
      requires Valid() && i < 128 && blocks[i].inUse != use
      modifies this`live, blocks
      ensures Valid() && p == Address(i) && ClassOf(p) == i / 32
      ensures (p in old(live)) != use
      ensures live == if use then old(live) + {p} else old(live) - {p}
      ensures forall c :: 0 <= c < CLASSES ==>
                FreeIn(c) == old(FreeIn(c)) + if c != i / 32 then 0 else if use then -1 else 1
    {
      p := blocks[i].address;
      ghost var was := blocks[..];
      LaidAt(was, 128, i);
      AddressClass(i);
      UsedAt(was, 128, i);
      LaidUpdate(was, 128, i, use);
      UsedUpdate(was, 128, i, use);
      blocks[i] := blocks[i].(inUse := use);
      live := if use then live + {p} else live - {p};
      assert blocks[..] == was[i := was[i].(inUse := use)];
      forall c: nat | c < CLASSES
        ensures Taken(blocks[..], 32 * c, PER_CLASS)
                == Taken(was, 32 * c, PER_CLASS) + if c != i / 32 then 0 else if use then 1 else -1
      {
        TakenUpdate(was, 32 * c, PER_CLASS, i, use);
      }
    }

    /** Clears and returns a live block; any other address is ignored. */
    method Free(p: nat)
      requires Valid()
      modifies this, blocks
      ensures Valid()
      ensures live == old(live) - {p} && mem == if p in old(live) then Wiped(old(mem), p) else old(mem)
      ensures forall c :: 0 <= c < CLASSES ==>
                FreeIn(c) == old(FreeIn(c)) + if p in old(live) && c == ClassOf(p) then 1 else 0
    {
      UsedBy(blocks[..], blocks.Length, p);
      if p == 0 || p < HEAP_START || p >= HEAP_END {
        if p in live {
          var i :| 0 <= i < 128 && blocks[..][i].inUse && blocks[..][i].address == p;
          LaidAt(blocks[..], blocks.Length, i);
          AddressClass(i);
        }
        return;
      }
      for i := 0 to 128
        invariant Valid() && live == old(live) && mem == old(mem) && blocks[..] == old(blocks[..])
        invariant forall k :: 0 <= k < i ==> !(blocks[..][k].inUse && blocks[..][k].address == p)
      {
        if blocks[i].address == p && blocks[i].inUse {
          LaidAt(blocks[..], blocks.Length, i);
          mem := Save(mem, p, Zeros(blocks[i].size));
          var _ := SetUse(i, false);
          return;
        }
      }
    }
  }
}
