/** The message pool: 64 slots, each naming a message block and a buffer block of the heap. */
module NngPool {
  import opened Widths
  import opened Tables
  import opened Heaps
  import opened NngSpec
  import opened NngLayout
  import opened NngMemory
  import opened NngCopies

  const HEADER_SIZE: nat := 24

  /** The heap blocks that the messages of the first k slots occupy. */
  ghost function BlocksOf(slots: seq<Cell<nat, nat>>, k: nat): set<nat>
    requires k <= |slots|
  {
    if k == 0 then {}
    else BlocksOf(slots, k - 1) + if slots[k - 1].inUse then {slots[k - 1].key, slots[k - 1].value} else {}
  }

  /** The heap's bytes, and whether every body still lies within its own block. */
  datatype Store = Store(mem: seq<Byte>, intact: bool)

  /** The bytes at p and b are those of the message. */
  ghost predicate Kept(s: Store, p: nat, b: nat, m: Message) {
    s.intact ==> Holds(s.mem, p, b, m.body) && |m.body| <= Capacity(m.small)
  }

  /** A live message: a small block p for its header and another block b for its body. */
  ghost predicate HasBlocks(p: nat, b: nat, live: map<nat, Message>) {
    && 0 != p && p != b && p in live && |live[p].body| <= BODY_SIZE
    && ClassOf(p) == 0 && ClassOf(b) == if live[p].small then 0 else 1
  }

  /** Each message of the first k slots has two blocks that no other message has, and lies there. */
  ghost predicate Backed(slots: seq<Cell<nat, nat>>, live: map<nat, Message>, s: Store, k: nat)
    requires k <= |slots|
  {
    k == 0 ||
    (Backed(slots, live, s, k - 1)
     && (slots[k - 1].inUse ==>
           HasBlocks(slots[k - 1].key, slots[k - 1].value, live)
           && Kept(s, slots[k - 1].key, slots[k - 1].value, live[slots[k - 1].key])
           && slots[k - 1].key !in BlocksOf(slots, k - 1) && slots[k - 1].value !in BlocksOf(slots, k - 1)))
  }

  lemma {:induction false} BackedAt(slots: seq<Cell<nat, nat>>, live: map<nat, Message>, s: Store, k: nat, p: nat)
    requires k <= |slots| && Backed(slots, live, s, k) && p in MapTo(slots, k)
    ensures HasBlocks(p, MapTo(slots, k)[p], live) && Kept(s, p, MapTo(slots, k)[p], live[p])
    ensures p in BlocksOf(slots, k) && MapTo(slots, k)[p] in BlocksOf(slots, k)
  {
    if !(slots[k - 1].inUse && slots[k - 1].key == p) { BackedAt(slots, live, s, k - 1, p); }
  }

  lemma {:induction false} BackedFrame(
      slots: seq<Cell<nat, nat>>, live: map<nat, Message>, live': map<nat, Message>, s: Store, k: nat, p: nat)
    requires k <= |slots| && Backed(slots, live, s, k) && p !in BlocksOf(slots, k)
    requires forall q :: q in live && q != p ==> q in live' && live'[q] == live[q]
    ensures Backed(slots, live', s, k)
  {
    if k > 0 { BackedFrame(slots, live, live', s, k - 1, p); }
  }

  /** Slots from k on do not matter to the first k. */
  lemma {:induction false} BackedBeyond(
      slots: seq<Cell<nat, nat>>, live: map<nat, Message>, s: Store, k: nat, i: nat, c: Cell<nat, nat>)
    requires k <= i < |slots|
    ensures BlocksOf(slots[i := c], k) == BlocksOf(slots, k)
    ensures Backed(slots[i := c], live, s, k) == Backed(slots, live, s, k)
  {
    if k > 0 { BackedBeyond(slots, live, s, k - 1, i, c); }
  }

  lemma {:induction false} BackedInsert(
      slots: seq<Cell<nat, nat>>, k: nat, i: nat, p: nat, b: nat, live: map<nat, Message>, s: Store, m: Message)
    requires i < k <= |slots| && Backed(slots, live, s, k) && !slots[i].inUse
    requires HasBlocks(p, b, live[p := m]) && Kept(s, p, b, m)
    requires p !in BlocksOf(slots, k) && b !in BlocksOf(slots, k)
    ensures Backed(slots[i := Cell(p, true, b)], live[p := m], s, k)
    ensures BlocksOf(slots[i := Cell(p, true, b)], k) == BlocksOf(slots, k) + {p, b}
  {
    if i == k - 1 {
      BackedBeyond(slots, live[p := m], s, i, i, Cell(p, true, b));
      BackedFrame(slots, live, live[p := m], s, i, p);
    } else {
      BackedInsert(slots, k - 1, i, p, b, live, s, m);
    }
  }

  lemma {:induction false} BackedDelete(slots: seq<Cell<nat, nat>>, k: nat, i: nat, live: map<nat, Message>, s: Store)
    requires i < k <= |slots| && Backed(slots, live, s, k) && slots[i].inUse
    ensures Backed(slots[i := Cell(0, false, 0)], Without<nat, Message>(live, slots[i].key), s, k)
    ensures BlocksOf(slots[i := Cell(0, false, 0)], k) == BlocksOf(slots, k) - {slots[i].key, slots[i].value}
    ensures HasBlocks(slots[i].key, slots[i].value, live) && Kept(s, slots[i].key, slots[i].value, live[slots[i].key])
    ensures slots[i].key in BlocksOf(slots, k) && slots[i].value in BlocksOf(slots, k)
  {
    var p := slots[i].key;
    if i == k - 1 {
      BackedBeyond(slots, Without<nat, Message>(live, p), s, i, i, Cell(0, false, 0));
      BackedFrame(slots, live, Without<nat, Message>(live, p), s, i, p);
    } else {
      BackedDelete(slots, k - 1, i, live, s);
    }
  }

  lemma {:induction false} BackedBlank(slots: seq<Cell<nat, nat>>, s: Store, k: nat)
    requires k <= |slots| && forall i :: 0 <= i < k ==> !slots[i].inUse
    ensures Backed(slots, map[], s, k) && BlocksOf(slots, k) == {}
  {
    if k > 0 { BackedBlank(slots, s, k - 1); }
  }

  /** Once a body has run over its block, nothing is claimed of the bytes. */
  lemma {:induction false} BackedLoose(slots: seq<Cell<nat, nat>>, live: map<nat, Message>, s: Store, s': Store, k: nat)
    requires k <= |slots| && Backed(slots, live, s, k) && !s'.intact
    ensures Backed(slots, live, s', k)
  {
    if k > 0 { BackedLoose(slots, live, s, s', k - 1); }
  }

  // ------------------------------------------------------- writes and the other messages

  lemma BlockApart(used: set<nat>, a: nat, m: nat, b: nat, n: nat)
    requires Tiles(used) && a in used && b in used && a != b
    requires m <= BlockSize(ClassOf(a)) && n <= BlockSize(ClassOf(b))
    ensures Apart(a, m, b, n)
  {
    assert Clear(a, b);
  }

  lemma BlockInside(used: set<nat>, mem: seq<Byte>, a: nat, n: nat)
    requires Tiles(used) && a in used && n <= BlockSize(ClassOf(a)) && |mem| == HEAP_END - HEAP_START
    ensures Inside(mem, a, n)
  {
    assert Within(a);
  }

  /** A write into a block leaves a message with other blocks as it was. */
  lemma SaveKeepsOne(used: set<nat>, mem: seq<Byte>, q: nat, c: nat, m: Message, p: nat, i: nat, data: Body)
    requires Tiles(used) && |mem| == HEAP_END - HEAP_START && {p, q, c} <= used && p != q && p != c
    requires ClassOf(q) == 0 && ClassOf(c) == (if m.small then 0 else 1) && Kept(Store(mem, true), q, c, m)
    requires i + |data| <= BlockSize(ClassOf(p))
    ensures Kept(Store(Save(mem, p + i, data), true), q, c, m)
  {
    BlockInside(used, mem, p, i + |data|);
    BlockApart(used, q, 64, p, i + |data|);
    BlockApart(used, c, |m.body|, p, i + |data|);
    HoldsApart(mem, q, c, m.body, p + i, data);
  }

  lemma {:induction false} SaveKeeps(
      slots: seq<Cell<nat, nat>>, live: map<nat, Message>, s: Store, k: nat, used: set<nat>, p: nat, i: nat, data: Body)
    requires k <= |slots| && Backed(slots, live, s, k) && |s.mem| == HEAP_END - HEAP_START
    requires Tiles(used) && BlocksOf(slots, k) <= used && p in used && p !in BlocksOf(slots, k)
    requires i + |data| <= BlockSize(ClassOf(p))
    ensures Backed(slots, live, Store(Save(s.mem, p + i, data), s.intact), k)
  {
    if k > 0 {
      SaveKeeps(slots, live, s, k - 1, used, p, i, data);
      if slots[k - 1].inUse && s.intact {
        var c := slots[k - 1];
        SaveKeepsOne(used, s.mem, c.key, c.value, live[c.key], p, i, data);
      }
    }
  }

  /** An append that stays in its block leaves a message with other blocks as it was. */
  lemma AppendKeepsOne(
      used: set<nat>, mem: seq<Byte>, q: nat, c: nat, m: Message,
      p: nat, b: nat, body: Body, data: Body, sum: Body -> Word)
    requires Tiles(used) && |mem| == HEAP_END - HEAP_START && {p, b, q, c} <= used && {p, b} !! {q, c}
    requires ClassOf(q) == 0 && ClassOf(c) == (if m.small then 0 else 1) && Kept(Store(mem, true), q, c, m)
    requires ClassOf(p) == 0 && |body| + |data| <= BlockSize(ClassOf(b)) && |body| + |data| <= BODY_SIZE
    requires Holds(mem, p, b, body)
    ensures Kept(Store(Appended(mem, p, data, sum), true), q, c, m)
  {
    BlockInside(used, mem, p, 64);
    BlockInside(used, mem, b, |body| + |data|);
    BlockApart(used, q, 64, p, 64);
    BlockApart(used, q, 64, b, |body| + |data|);
    BlockApart(used, c, |m.body|, p, 64);
    BlockApart(used, c, |m.body|, b, |body| + |data|);
    AppendApart(mem, p, b, body, data, sum, q, c, m.body);
  }

  lemma {:induction false} AppendKeeps(
      slots: seq<Cell<nat, nat>>, live: map<nat, Message>, mem: seq<Byte>, k: nat, used: set<nat>,
      p: nat, b: nat, body: Body, data: Body, sum: Body -> Word)
    requires k <= |slots| && Backed(slots, live, Store(mem, true), k) && |mem| == HEAP_END - HEAP_START
    requires Tiles(used) && BlocksOf(slots, k) <= used && {p, b} <= used && {p, b} !! BlocksOf(slots, k)
    requires ClassOf(p) == 0 && |body| + |data| <= BlockSize(ClassOf(b)) && |body| + |data| <= BODY_SIZE
    requires Holds(mem, p, b, body)
    ensures Backed(slots, live, Store(Appended(mem, p, data, sum), true), k)
  {
    if k > 0 {
      AppendKeeps(slots, live, mem, k - 1, used, p, b, body, data, sum);
      if slots[k - 1].inUse {
        var c := slots[k - 1];
        AppendKeepsOne(used, mem, c.key, c.value, live[c.key], p, b, body, data, sum);
      }
    }
  }

  /** The message after an append, in its own blocks. */
  lemma AppendKeepsOwn(
      used: set<nat>, mem: seq<Byte>, p: nat, b: nat, m: Message, data: Body, sum: Body -> Word)
    requires Tiles(used) && |mem| == HEAP_END - HEAP_START && {p, b} <= used && p != b
    requires ClassOf(p) == 0 && ClassOf(b) == (if m.small then 0 else 1)
    requires Holds(mem, p, b, m.body) && |m.body| + |data| <= Capacity(m.small)
    ensures Kept(Store(Appended(mem, p, data, sum), true), p, b, m.(body := m.body + data))
  {
    BlockInside(used, mem, p, 64);
    BlockInside(used, mem, b, |m.body| + |data|);
    BlockApart(used, p, 64, b, |m.body| + |data|);
    AppendHolds(mem, p, b, m.body, data, sum);
  }

  /** An append to the message in slot i: its own bytes change as intended and nobody else's, as
      long as the body stays within its block. */
  lemma AppendView(
      slots: seq<Cell<nat, nat>>, live: map<nat, Message>, s: Store, i: nat, used: set<nat>, data: Body, sum: Body -> Word)
    requires i < |slots| && slots[i].inUse && Backed(slots, live, s, |slots|) && slots[i].key in live
    requires Tiles(used) && BlocksOf(slots, |slots|) <= used && |s.mem| == HEAP_END - HEAP_START
    requires |live[slots[i].key].body| + |data| <= BODY_SIZE
    ensures var p, m := slots[i].key, live[slots[i].key].(body := live[slots[i].key].body + data);
            Backed(slots, live[p := m],
                   Store(Appended(s.mem, p, data, sum), s.intact && |m.body| <= Capacity(m.small)), |slots|)
  {
    var p, b, n := slots[i].key, slots[i].value, |slots|;
    var m := live[p].(body := live[p].body + data);
    var rest, others := slots[i := Cell(0, false, 0)], Without<nat, Message>(live, p);
    var s' := Store(Appended(s.mem, p, data, sum), s.intact && |m.body| <= Capacity(m.small));
    BackedDelete(slots, n, i, live, s);
    if s'.intact {
      AppendKeeps(rest, others, s.mem, n, used, p, b, live[p].body, data, sum);
      AppendKeepsOwn(used, s.mem, p, b, live[p], data, sum);
    } else {
      BackedLoose(rest, others, s, s', n);
    }
    BackedInsert(rest, n, i, p, b, others, s', m);
    assert rest[i := Cell(p, true, b)] == slots && others[p := m] == live[p := m];
  }

  /** A source in its own block reads the same bytes as the copy writes. */
  lemma FillIsAppend(used: set<nat>, mem: seq<Byte>, p: nat, b: nat, q: nat, c: nat, m: Message, sum: Body -> Word)
    requires Tiles(used) && |mem| == HEAP_END - HEAP_START && {p, b, q, c} <= used && b != c
    requires Holds(mem, p, b, []) && Holds(mem, q, c, m.body) && |m.body| <= SMALL_BLOCK
    ensures BodyAt(mem, q) == m.body
    ensures AppendedFrom(mem, p, BodyPtr(mem, q), BodyLen(mem, q), sum) == Appended(mem, p, m.body, sum)
  {
    BlockInside(used, mem, b, |m.body|);
    BlockInside(used, mem, c, |m.body|);
    BlockApart(used, c, |m.body|, b, |m.body|);
    ForwardAppend(mem, p, c, |m.body|, sum);
  }

  /** Another message than that of slot i has other blocks. */
  lemma OtherBlocks(slots: seq<Cell<nat, nat>>, live: map<nat, Message>, s: Store, i: nat, q: nat) returns (c: nat)
    requires i < |slots| && slots[i].inUse && Keyed(slots) && Backed(slots, live, s, |slots|)
    requires q in ToMap(slots) && q != slots[i].key
    ensures q in live && Kept(s, q, c, live[q]) && {q, c} <= BlocksOf(slots, |slots|) && {q, c} !! {slots[i].key, slots[i].value}
  {
    var rest, others := slots[i := Cell(0, false, 0)], Without<nat, Message>(live, slots[i].key);
    BackedDelete(slots, |slots|, i, live, s);
    Delete(slots, i, Cell(0, false, 0));
    BackedAt(rest, others, s, |rest|, q);
    c := MapTo(rest, |rest|)[q];
  }

  /** A copy of what the heap holds for src into the new message of slot i. */
  lemma FillView(
      slots: seq<Cell<nat, nat>>, live: map<nat, Message>, s: Store, i: nat, used: set<nat>, src: nat, sum: Body -> Word)
    requires i < |slots| && slots[i].inUse && Keyed(slots) && Backed(slots, live, s, |slots|)
    requires Tiles(used) && BlocksOf(slots, |slots|) <= used && |s.mem| == HEAP_END - HEAP_START
    requires src in ToMap(slots) && src != slots[i].key
    requires slots[i].key in live && live[slots[i].key] == Message([], true) && BodyLen(s.mem, src) <= BODY_SIZE
    ensures var p, a, n, body := slots[i].key, BodyPtr(s.mem, src), BodyLen(s.mem, src), BodyAt(s.mem, src);
            Backed(slots, live[p := Message(body, true)],
                   Store(AppendedFrom(s.mem, p, a, n, sum), s.intact && n <= SMALL_BLOCK), |slots|)
  {
    var p, b, body := slots[i].key, slots[i].value, BodyAt(s.mem, src);
    BackedDelete(slots, |slots|, i, live, s);
    if s.intact && BodyLen(s.mem, src) <= SMALL_BLOCK {
      var c := OtherBlocks(slots, live, s, i, src);
      FillIsAppend(used, s.mem, p, b, src, c, live[src], sum);
      AppendView(slots, live, s, i, used, body, sum);
      assert [] + body == body;
    } else {
      FillLoose(slots, live, s, i, body, Store(AppendedFrom(s.mem, p, BodyPtr(s.mem, src), BodyLen(s.mem, src), sum), false));
    }
  }

  lemma FillLoose(slots: seq<Cell<nat, nat>>, live: map<nat, Message>, s: Store, i: nat, body: Body, s': Store)
    requires i < |slots| && slots[i].inUse && Backed(slots, live, s, |slots|) && !s'.intact
    requires slots[i].key in live && live[slots[i].key].small && |body| <= BODY_SIZE
    ensures Backed(slots, live[slots[i].key := Message(body, true)], s', |slots|)
  {
    var p, b, n := slots[i].key, slots[i].value, |slots|;
    var rest, others := slots[i := Cell(0, false, 0)], Without<nat, Message>(live, p);
    BackedDelete(slots, n, i, live, s);
    BackedLoose(rest, others, s, s', n);
    BackedInsert(rest, n, i, p, b, others, s', Message(body, true));
    assert rest[i := Cell(p, true, b)] == slots && others[p := Message(body, true)] == live[p := Message(body, true)];
  }

  /** Giving back the blocks of the message in slot i leaves every other message as it was. */
  lemma FreeView(slots: seq<Cell<nat, nat>>, live: map<nat, Message>, s: Store, i: nat, used: set<nat>)
    requires i < |slots| && slots[i].inUse && Backed(slots, live, s, |slots|)
    requires Tiles(used) && BlocksOf(slots, |slots|) <= used && |s.mem| == HEAP_END - HEAP_START
    ensures var p, b := slots[i].key, slots[i].value;
            Backed(slots[i := Cell(0, false, 0)], Without<nat, Message>(live, p),
                   Store(Wiped(Wiped(s.mem, b), p), s.intact), |slots|)
  {
    var p, b, n := slots[i].key, slots[i].value, |slots|;
    var rest, others := slots[i := Cell(0, false, 0)], Without<nat, Message>(live, p);
    BackedDelete(slots, n, i, live, s);
    SaveKeeps(rest, others, s, n, used, b, 0, Zeros(BlockSize(ClassOf(b))));
    SaveKeeps(rest, others, Store(Wiped(s.mem, b), s.intact), n, used, p, 0, Zeros(BlockSize(ClassOf(p))));
  }

  /** The heap has the blocks a message of this size takes. */
  predicate Affords(small: int, medium: int, size: nat) {
    if size <= SMALL_BLOCK then small >= 2 else small >= 1 && medium >= 1
  }

  class Pool {
    const heap: Heap
    const sum: Body -> Word              // the checksum routine
    const slots: array<Cell<nat, nat>>   // message block -> buffer block
    ghost var live: map<nat, Message>    // the messages as they were written
    ghost var intact: bool               // no body has run over its block; then the heap holds `live`
    ghost var small: nat                 // the free 64-byte blocks
    ghost var medium: nat                // the free 256-byte blocks

    /** Every message has its two blocks and, while none has run over its block, lies in them. */
    ghost predicate Sound()
      reads this, heap, heap.blocks, slots
    {
      && heap.Valid() && slots.Length == MAX_MESSAGES
      && heap as object != this && heap.blocks as object != slots
      && Keyed(slots[..])
      && ToMap(slots[..]).Keys == live.Keys
      && Backed(slots[..], live, Store(heap.mem, intact), slots.Length)
      && BlocksOf(slots[..], slots.Length) <= heap.live
    }

    ghost predicate Valid()
      reads this, heap, heap.blocks, slots
    {
      Sound() && small == heap.FreeIn(0) && medium == heap.FreeIn(1)
    }

    constructor (h: Heap, checksum: Body -> Word)
      requires h.Valid()
      ensures Valid() && heap == h && sum == checksum && fresh(slots) && live == map[] && intact
      ensures small == old(h.FreeIn(0)) && medium == old(h.FreeIn(1))
    {
      heap := h;
      sum := checksum;
      small, medium := h.FreeIn(0), h.FreeIn(1);
      slots := new Cell<nat, nat>[MAX_MESSAGES](_ => Cell(0, false, 0));
      live := map[];
      intact := true;
      new;
      Blank(slots[..]);
      BackedBlank(slots[..], Store(heap.mem, intact), slots.Length);
    }

    lemma LiveMessage(p: nat)
      requires Valid() && p in live
      ensures p != 0 && |live[p].body| <= BODY_SIZE
    {
      BackedAt(slots[..], live, Store(heap.mem, intact), slots.Length, p);
    }

    /** While no body has run over its block, the heap holds every live message. */
    lemma InHeap(p: nat)
      requires Valid() && p in live && intact
      ensures BodyAt(heap.mem, p) == live[p].body && BodyLen(heap.mem, p) == |live[p].body| <= Capacity(live[p].small)
    {
      BackedAt(slots[..], live, Store(heap.mem, intact), slots.Length, p);
    }

    // --------------------------------------------------------------------- blocks

    /** Takes a block from the heap; no message lies in it. */
    method Grab(size: nat) returns (p: nat)
      requires Sound()
      modifies heap, heap.blocks
      ensures Sound()
      ensures p == 0 <==> size == 0 || size > MAX_ALLOC || old(heap.FreeIn(SizeClass(size))) == 0
      ensures p == 0 ==> heap.live == old(heap.live) && heap.mem == old(heap.mem)
                         && forall c :: 0 <= c < CLASSES ==> heap.FreeIn(c) == old(heap.FreeIn(c))
      ensures p != 0 ==> p !in old(heap.live) && heap.live == old(heap.live) + {p} && ClassOf(p) == SizeClass(size)
                         && heap.mem == Wiped(old(heap.mem), p)
                         && forall c :: 0 <= c < CLASSES ==>
                              heap.FreeIn(c) == old(heap.FreeIn(c)) - if c == ClassOf(p) then 1 else 0
    {
      p := heap.Alloc(size);
      if p != 0 {
        UsedTiles(heap.blocks[..]);
        SaveKeeps(slots[..], live, Store(old(heap.mem), intact), slots.Length, heap.live, p, 0, Zeros(BlockSize(ClassOf(p))));
      }
    }

    /** Gives back a block that no message lies in. */
    method Release(p: nat)
      requires Sound() && p in heap.live && p !in BlocksOf(slots[..], slots.Length)
      modifies heap, heap.blocks
      ensures Sound() && heap.live == old(heap.live) - {p}
      ensures forall c :: 0 <= c < CLASSES ==>
                heap.FreeIn(c) == old(heap.FreeIn(c)) + if c == ClassOf(p) then 1 else 0
    {
      UsedTiles(heap.blocks[..]);
      SaveKeeps(slots[..], live, Store(heap.mem, intact), slots.Length, heap.live, p, 0, Zeros(BlockSize(ClassOf(p))));
      heap.Free(p);
    }

    /** Takes a header block and a body block, or none. */
    method TakeBlocks(size: nat) returns (p: nat, b: nat)
      requires Sound() && size <= BODY_SIZE
      modifies heap, heap.blocks
      ensures Sound()
      ensures p != 0 <==> Affords(old(heap.FreeIn(0)), old(heap.FreeIn(1)), size)
      ensures p == 0 ==> heap.live == old(heap.live)
                         && heap.FreeIn(0) == old(heap.FreeIn(0)) && heap.FreeIn(1) == old(heap.FreeIn(1))
      ensures p != 0 ==>
                && p !in old(heap.live) && b !in old(heap.live) && p != b
                && heap.live == old(heap.live) + {p} + {b} && heap.mem == Wiped(Wiped(old(heap.mem), p), b)
                && ClassOf(p) == 0 && ClassOf(b) == (if size <= SMALL_BLOCK then 0 else 1)
                && heap.FreeIn(0) == old(heap.FreeIn(0)) - (if size <= SMALL_BLOCK then 2 else 1)
                && heap.FreeIn(1) == old(heap.FreeIn(1)) - (if size <= SMALL_BLOCK then 0 else 1)
    {
      p := Grab(HEADER_SIZE);
      if p == 0 { return 0, 0; }
      var want := if size > 0 then size else 8;
      b := Grab(want);
      if b == 0 {
        Release(p);
        assert heap.live == old(heap.live);
        return 0, 0;
      }
    }

    method ReturnBlocks(p: nat, b: nat)
      requires heap.Valid() && p in heap.live && b in heap.live && p != b
      requires ClassOf(p) == 0 && ClassOf(b) <= 1
      modifies heap, heap.blocks
      ensures heap.Valid() && heap.live == old(heap.live) - {b} - {p} && heap.mem == Wiped(Wiped(old(heap.mem), b), p)
      ensures heap.FreeIn(0) == old(heap.FreeIn(0)) + 2 - ClassOf(b)
      ensures heap.FreeIn(1) == old(heap.FreeIn(1)) + ClassOf(b)
    {
      heap.Free(b);
      heap.Free(p);
    }

    // ------------------------------------------------------------------- messages

    /** Every failure gives back what it took. */
    method Alloc(size: nat) returns (rv: int, p: nat, ghost b: nat)
      requires Valid()
      modifies this, heap, heap.blocks, slots
      ensures Valid() && intact == old(intact)
      ensures rv == if |old(live)| >= MAX_MESSAGES then ENOMEM
                    else if size > BODY_SIZE then EINVAL
                    else if Affords(old(small), old(medium), size) then OK else ENOMEM
      ensures rv != OK ==> p == 0 && live == old(live) && small == old(small) && medium == old(medium)
      ensures rv == OK ==>
                && p != 0 && p !in old(live) && live == old(live)[p := Message([], size <= SMALL_BLOCK)]
                && small == old(small) - (if size <= SMALL_BLOCK then 2 else 1)
                && medium == old(medium) - (if size <= SMALL_BLOCK then 0 else 1)
      ensures rv == OK ==> heap.mem == NewMessage(old(heap.mem), p, b) && BodyLen(heap.mem, p) == 0
    {
      SlotCount(slots[..], live);
      var slot := FindFree(slots);
      if slot < 0 { return ENOMEM, 0, 0; }
      if size > BODY_SIZE { return EINVAL, 0, 0; }
      rv, p, b := AllocIn(slot, size);
    }

    /** Builds a message in a free slot, or takes nothing. */
    method AllocIn(slot: nat, size: nat) returns (rv: int, p: nat, ghost b: nat)
      requires Valid() && slot < MAX_MESSAGES && !slots[slot].inUse && size <= BODY_SIZE
      modifies this, heap, heap.blocks, slots
      ensures Valid() && intact == old(intact) && rv == if Affords(old(small), old(medium), size) then OK else ENOMEM
      ensures rv != OK ==> p == 0 && live == old(live) && small == old(small) && medium == old(medium)
      ensures rv == OK ==>
                && p != 0 && p !in old(live) && live == old(live)[p := Message([], size <= SMALL_BLOCK)]
                && small == old(small) - (if size <= SMALL_BLOCK then 2 else 1)
                && medium == old(medium) - (if size <= SMALL_BLOCK then 0 else 1)
      ensures rv == OK ==> heap.mem == NewMessage(old(heap.mem), p, b) && BodyLen(heap.mem, p) == 0
    {
      var buf;
      p, buf := TakeBlocks(size);
      b := buf;
      if p == 0 { return ENOMEM, 0, 0; }
      if p in live { BackedAt(slots[..], live, Store(heap.mem, intact), slots.Length, p); }
      FillHeader(p, buf, old(heap.mem));
      Register(slot, p, buf, Message([], size <= SMALL_BLOCK));
      small, medium := heap.FreeIn(0), heap.FreeIn(1);
      rv := OK;
    }

    /** Writes the header of a new, empty message. */
    method FillHeader(p: nat, b: nat, ghost was: seq<Byte>)
      requires Sound() && p in heap.live && b in heap.live && ClassOf(p) == 0
      requires p !in BlocksOf(slots[..], slots.Length)
      requires |was| == |heap.mem| && heap.mem == Wiped(Wiped(was, p), b)
      modifies heap`mem
      ensures Sound() && heap.mem == NewMessage(was, p, b) && Holds(heap.mem, p, b, [])
    {
      UsedTiles(heap.blocks[..]);
      SaveKeeps(slots[..], live, Store(heap.mem, intact), slots.Length, heap.live, p, 0, Header(b, 0, 0));
      BlockInside(heap.live, was, p, 64);
      BlockInside(heap.live, was, b, 64);
      NewHolds(was, p, b);
      heap.mem := Save(heap.mem, p, Header(b, 0, 0));
    }

    /** Records a new message in a free slot. */
    method Register(slot: nat, p: nat, b: nat, ghost m: Message)
      requires Sound() && slot < MAX_MESSAGES && !slots[slot].inUse && p !in live
      requires p !in BlocksOf(slots[..], slots.Length) && b !in BlocksOf(slots[..], slots.Length) && {p, b} <= heap.live
      requires HasBlocks(p, b, live[p := m]) && Kept(Store(heap.mem, intact), p, b, m)
      modifies this`live, slots
      ensures Sound() && live == old(live)[p := m]
    {
      ghost var was := slots[..];
      BackedInsert(was, slots.Length, slot, p, b, live, Store(heap.mem, intact), m);
      Insert(was, slot, p, b);
      slots[slot] := Cell(p, true, b);
      assert slots[..] == was[slot := Cell(p, true, b)];
      live := live[p := m];
    }

    /** A new small message with what the heap, behind the allocation, holds as the source's body.
        While no body has run over its block that is the source; the copy itself runs over its
        block if it is longer than that. */
    method Copy(src: nat) returns (rv: int, p: nat, ghost b: nat)
      requires Valid() && src in live
      modifies this, heap, heap.blocks, slots
      ensures Valid() && rv in {OK, ENOMEM}
      ensures rv != OK ==> live == old(live) && small == old(small) && medium == old(medium) && intact == old(intact)
      ensures rv == OK ==>
                && p != 0 && p !in old(live) && p in live && live[p].small && live == old(live)[p := live[p]]
                && |live| == |old(live)| + 1 && small == old(small) - 2 && medium == old(medium)
                && (!old(intact) ==> !intact) && heap.mem == CopyMade(old(heap.mem), src, p, b, sum)
      ensures old(intact) ==>
                var body := old(live)[src].body;
                && rv == (if |old(live)| < MAX_MESSAGES && old(small) >= 2 then OK else ENOMEM)
                && (rv == OK ==> live[p] == Message(body, true) && intact == (|body| <= SMALL_BLOCK))
    {
      ghost var was := live;
      rv, p, b := Alloc(0);
      if rv != OK { return; }
      if BodyLen(heap.mem, src) > 0 {
        rv := Fill(p, src, was);
      } else {
        if intact { InHeap(src); }
      }
      if rv == OK { MapSizes(was, p, live[p]); }
    }

    /** Copies the source's body into a new message, or gives the message back. */
    method Fill(p: nat, src: nat, ghost was: map<nat, Message>) returns (rv: int)
      requires Valid() && p !in was && src in was && live == was[p := Message([], true)] && BodyLen(heap.mem, p) == 0
      modifies this, heap, heap.blocks, slots
      ensures Valid() && rv in {OK, ENOMEM} && (!old(intact) ==> !intact)
      ensures rv == OK ==> p in live && live[p].small && live == was[p := live[p]]
                           && small == old(small) && medium == old(medium)
                           && heap.mem == FilledFrom(old(heap.mem), p, src, sum)
      ensures rv != OK ==> live == was && small == old(small) + 2 && medium == old(medium) && intact == old(intact)
      ensures old(intact) ==>
                var body := was[src].body;
                rv == OK && live[p] == Message(body, true) && intact == (|body| <= SMALL_BLOCK)
    {
      if intact { InHeap(src); }
      var n := BodyLen(heap.mem, src);
      if BodyLen(heap.mem, p) + n > BODY_SIZE {
        Discard(p, was, Message([], true));
        return ENOMEM;
      }
      var i := Find(p);
      assert slots[..][i] == slots[i];
      FillFrom(i, src, was);
      return OK;
    }

    method FillFrom(i: nat, src: nat, ghost was: map<nat, Message>)
      requires Valid() && i < MAX_MESSAGES && slots[i].inUse && slots[i].key !in was && src in was
      requires live == was[slots[i].key := Message([], true)]
      requires BodyLen(heap.mem, slots[i].key) == 0 && BodyLen(heap.mem, src) <= BODY_SIZE
      modifies this`live, this`intact, heap`mem
      ensures Valid() && live == was[slots[i].key := Message(BodyAt(old(heap.mem), src), true)]
      ensures intact == (old(intact) && BodyLen(old(heap.mem), src) <= SMALL_BLOCK)
      ensures heap.mem == FilledFrom(old(heap.mem), slots[i].key, src, sum)
    {
      var p := slots[i].key;
      ghost var m, ok := Message(BodyAt(heap.mem, src), true), intact && BodyLen(heap.mem, src) <= SMALL_BLOCK;
      FillSound(i, src);
      UpdateTwice(was, p, Message([], true), m);
      Pour(p, src);
      Settle(was[p := m], ok);
    }

    method Pour(p: nat, src: nat)
      requires AppendCode(heap.mem, p, BodyLen(heap.mem, src)) == OK
      modifies heap`mem
      ensures |heap.mem| == |old(heap.mem)| && heap.mem == FilledFrom(old(heap.mem), p, src, sum)
    {
      var dst, a, n := BodyPtr(heap.mem, p) + BodyLen(heap.mem, p), BodyPtr(heap.mem, src), BodyLen(heap.mem, src);
      AppendFromIs(heap.mem, p, a, n, sum);
      CopyIn(p, dst, a, n);
    }

    lemma FillSound(i: nat, src: nat)
      requires Valid() && i < MAX_MESSAGES && slots[i].inUse && src in live && src != slots[i].key
      requires slots[i].key in live && live[slots[i].key] == Message([], true)
      requires BodyLen(heap.mem, src) <= BODY_SIZE
      ensures var p, m := slots[i].key, Message(BodyAt(heap.mem, src), true);
              Backed(slots[..], live[p := m],
                     Store(FilledFrom(heap.mem, p, src, sum), intact && BodyLen(heap.mem, src) <= SMALL_BLOCK), slots.Length)
    {
      UsedTiles(heap.blocks[..]);
      FillView(slots[..], live, Store(heap.mem, intact), i, heap.live, src, sum);
    }

    /** The bytes are in place; the messages as written follow. */
    ghost method Settle(now: map<nat, Message>, ok: bool)
      requires heap.Valid() && slots.Length == MAX_MESSAGES && heap as object != this && heap.blocks as object != slots
      requires small == heap.FreeIn(0) && medium == heap.FreeIn(1)
      requires Keyed(slots[..]) && ToMap(slots[..]).Keys == now.Keys && BlocksOf(slots[..], slots.Length) <= heap.live
      requires Backed(slots[..], now, Store(heap.mem, ok), slots.Length)
      modifies this`live, this`intact
      ensures Valid() && live == now && intact == ok
    {
      live := now;
      intact := ok;
    }

    /** Copies n bytes of the heap behind a body, then writes the length and the checksum. */
    method CopyIn(p: nat, dst: nat, a: nat, n: nat)
      modifies heap`mem
      ensures |heap.mem| == |old(heap.mem)| && heap.mem == WriteHeader(CopiedTo(old(heap.mem), dst, a, n), p, n, sum)
    {
      PlainCopy(dst, a, n);
      Conclude(p, n);
    }

    /** Writes the new length and then the checksum. */
    method Conclude(p: nat, n: nat)
      modifies heap`mem
      ensures |heap.mem| == |old(heap.mem)| && heap.mem == WriteHeader(old(heap.mem), p, n, sum)
    {
      heap.mem := WriteLength(heap.mem, p, n);
      heap.mem := WriteSum(heap.mem, p, sum);
    }

    method PlainCopy(dst: nat, src: nat, n: nat)
      modifies heap`mem
      ensures |heap.mem| == |old(heap.mem)| && heap.mem == CopiedTo(old(heap.mem), dst, src, n)
    {
      CopyStep(heap.mem, dst, src, 0);
      for k := 0 to n
        invariant |heap.mem| == |old(heap.mem)| && heap.mem == CopiedTo(old(heap.mem), dst, src, k)
      {
        CopyStep(old(heap.mem), dst, src, k);
        heap.mem := Save(heap.mem, dst + k, Load(heap.mem, src + k, 1));
      }
    }

    method Find(p: nat) returns (i: int)
      requires Valid()
      ensures -1 <= i < MAX_MESSAGES
      ensures i == -1 <==> p !in live
      ensures i != -1 ==> slots[i].inUse && slots[i].key == p && slots[i].value == ToMap(slots[..])[p]
    {
      for j := 0 to MAX_MESSAGES
        invariant forall k :: 0 <= k < j && slots[k].inUse ==> slots[k].key != p
      {
        if slots[j].inUse && slots[j].key == p {
          assert slots[..][j] == slots[j];
          Member(slots[..], j);
          return j;
        }
      }
      Missing(slots[..], p);
      return -1;
    }

    method Free(p: nat) returns (rv: int)
      requires Valid()
      modifies this, heap, heap.blocks, slots
      ensures Valid() && intact == old(intact) && rv == if p in old(live) then OK else EINVAL
      ensures rv != OK ==> live == old(live) && small == old(small) && medium == old(medium)
      ensures rv == OK ==>
                && live == Without<nat, Message>(old(live), p)
                && small == old(small) + (if old(live)[p].small then 2 else 1)
                && medium == old(medium) + (if old(live)[p].small then 0 else 1)
    {
      var i := Find(p);
      if i < 0 { return EINVAL; }
      assert slots[..][i] == slots[i];
      FreeIn(i);
      return OK;
    }

    /** Gives back the blocks of the message in slot i, and the slot. */
    method FreeIn(i: nat)
      requires Valid() && i < MAX_MESSAGES && slots[i].inUse && slots[i].key in live
      modifies this, heap, heap.blocks, slots
      ensures Valid() && intact == old(intact)
      ensures var p, m := old(slots[i].key), old(live[slots[i].key]);
              && live == Without<nat, Message>(old(live), p)
              && small == old(small) + (if m.small then 2 else 1)
              && medium == old(medium) + (if m.small then 0 else 1)
              && heap.mem == Wiped(Wiped(old(heap.mem), old(slots[i].value)), p)
    {
      var p := slots[i].key;
      ghost var was := slots[..];
      BackedDelete(was, slots.Length, i, live, Store(heap.mem, intact));
      UsedTiles(heap.blocks[..]);
      FreeView(was, live, Store(heap.mem, intact), i, heap.live);
      ReturnBlocks(p, slots[i].value);
      Delete(was, i, Cell(0, false, 0));
      ClearSlot(i);
      live := Without<nat, Message>(live, p);
      small, medium := heap.FreeIn(0), heap.FreeIn(1);
    }

    method ClearSlot(i: nat)
      requires i < slots.Length
      modifies slots
      ensures slots[..] == old(slots[..])[i := Cell(0, false, 0)]
    {
      slots[i] := Cell(0, false, 0);
    }

    /** Freeing a message whose buffer is a small block. */
    method FreeSmall(p: nat)
      requires Valid() && p in live && live[p].small
      modifies this, heap, heap.blocks, slots
      ensures Valid() && intact == old(intact) && live == old(live) - {p} && |live| == |old(live)| - 1
      ensures small == old(small) + 2 && medium == old(medium)
    {
      ghost var was := live;
      var _ := Free(p);
      WithoutOne<nat, Message>(was, p);
    }

    /** Undoes the allocation of a small message. */
    method Discard(p: nat, ghost was: map<nat, Message>, ghost m: Message)
      requires Valid() && p !in was && live == was[p := m] && m.small
      modifies this, heap, heap.blocks, slots
      ensures Valid() && intact == old(intact) && live == was && small == old(small) + 2 && medium == old(medium)
    {
      DropNew(was, p, m);
      FreeSmall(p);
    }

    /** Writes behind the body the header names, up to 256 bytes, whatever the size of its block. */
    method Append(p: nat, data: Body) returns (rv: int)
      requires Valid()
      modifies this`live, this`intact, heap`mem
      ensures Valid()
      ensures p !in old(live) ==> rv == EINVAL && live == old(live) && intact == old(intact) && heap.mem == old(heap.mem)
      ensures p in old(live) ==> rv == AppendCode(old(heap.mem), p, |data|) && heap.mem == Appended(old(heap.mem), p, data, sum)
      ensures p in old(live) ==> live.Keys == old(live).Keys
      ensures p in old(live) ==>
                var m := old(live)[p].(body := old(live)[p].body + data);
                && live == (if rv == OK && |m.body| <= BODY_SIZE then old(live)[p := m] else old(live))
                && intact == (old(intact) && (rv == OK ==> |m.body| <= Capacity(m.small)))
                && (old(intact) ==> rv == if |m.body| <= BODY_SIZE then OK else ENOMEM)
    {
      var i := Find(p);
      if i < 0 { return EINVAL; }
      if intact { InHeap(p); }
      if BodyLen(heap.mem, p) + |data| > BODY_SIZE { return ENOMEM; }
      assert slots[..][i] == slots[i];
      AppendIn(i, data);
      return OK;
    }

    method AppendIn(i: nat, data: Body)
      requires Valid() && i < MAX_MESSAGES && slots[i].inUse && slots[i].key in live
      requires AppendCode(heap.mem, slots[i].key, |data|) == OK
      modifies this`live, this`intact, heap`mem
      ensures Valid() && heap.mem == Appended(old(heap.mem), slots[i].key, data, sum)
      ensures var p := slots[i].key; var m := old(live)[p].(body := old(live)[p].body + data);
              && live == (if |m.body| <= BODY_SIZE then old(live)[p := m] else old(live))
              && intact == (old(intact) && |m.body| <= Capacity(m.small))
    {
      var p := slots[i].key;
      ghost var m, s := live[p].(body := live[p].body + data), Store(heap.mem, intact);
      UsedTiles(heap.blocks[..]);
      if |m.body| <= BODY_SIZE {
        AppendView(slots[..], live, s, i, heap.live, data, sum);
        live := live[p := m];
      } else {
        BackedLoose(slots[..], live, s, Store(Appended(heap.mem, p, data, sum), false), slots.Length);
      }
      intact := intact && |m.body| <= Capacity(m.small);
      WriteOut(p, data);
    }

    /** Writes the bytes, the length and the checksum. */
    method WriteOut(p: nat, data: Body)
      requires heap.Valid() && AppendCode(heap.mem, p, |data|) == OK
      modifies heap`mem
      ensures heap.Valid() && heap.mem == Appended(old(heap.mem), p, data, sum)
    {
      heap.mem := WriteBody(heap.mem, p, data);
      Conclude(p, |data|);
    }

    /** What a sender's body reads as. */
    method ReadBody(p: nat) returns (body: Body)
      requires Valid() && p in live
      ensures body == BodyAt(heap.mem, p) && (intact ==> body == live[p].body)
    {
      if intact { InHeap(p); }
      body := BodyAt(heap.mem, p);
    }
  }

  lemma DropNew(live: map<nat, Message>, p: nat, m: Message)
    requires p !in live
    ensures live[p := m] - {p} == live
  {}

  /** The slots in use are as many as the live messages. */
  lemma SlotCount(slots: seq<Cell<nat, nat>>, live: map<nat, Message>)
    requires Keyed(slots) && ToMap(slots).Keys == live.Keys
    ensures |ToMap(slots)| == |live| && |live| <= |slots|
  {
    FullIffSize(slots);
    assert |ToMap(slots).Keys| == |live.Keys|;
  }
}
