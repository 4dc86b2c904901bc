/** The page frame allocator: a bitmap and a counter that refine a set of held frames. */
module Frames {
  import opened Bits

  const POOL_BASE: nat := 0x00200000
  const FRAME_SIZE: nat := 4096
  const FRAMES: nat := 1024
  const WORDS: nat := 32

  // ----------------------------------------------------------------- the bitmap

  /** Bit i % 32 of word i / 32 is set exactly for the frames in `held`. */
  ghost predicate Represents<T>(bit: (T, nat) -> bool, bitmap: seq<T>, held: set<nat>) {
    && |bitmap| == WORDS
    && (forall i :: i in held ==> i < FRAMES)
    && forall i: nat :: i < FRAMES ==> (i in held <==> bit(bitmap[i / 32], i % 32))
  }

  lemma EmptyMap<T>(bit: (T, nat) -> bool, bitmap: seq<T>, zero: T)
    requires |bitmap| == WORDS && forall k :: 0 <= k < WORDS ==> bitmap[k] == zero
    requires forall b: nat :: !bit(zero, b)
    ensures Represents(bit, bitmap, {})
  {}

  lemma WriteBit<T>(bit: (T, nat) -> bool, bitmap: seq<T>, held: set<nat>, i: nat, on: bool, w': T)
    requires Represents(bit, bitmap, held) && i < FRAMES
    requires IsWrite(bit, bitmap[i / 32], i % 32, on, w')
    ensures Represents(bit, bitmap[i / 32 := w'], if on then held + {i} else held - {i})
  {
    var after := bitmap[i / 32 := w'];
    var held' := if on then held + {i} else held - {i};
    forall j: nat | j < FRAMES ensures j in held' <==> bit(after[j / 32], j % 32) {
      if j / 32 == i / 32 && j % 32 == i % 32 { assert j == i; }
    }
  }

  ghost function Below(n: nat): set<nat> {
    if n == 0 then {} else Below(n - 1) + {n - 1}
  }

  lemma {:induction false} BelowMembers(n: nat)
    ensures forall i :: i in Below(n) <==> 0 <= i < n
    ensures |Below(n)| == n
  {
    if n > 0 { BelowMembers(n - 1); }
  }

  lemma HeldBound(held: set<nat>, n: nat)
    requires forall i :: i in held ==> i < n
    ensures |held| <= n
    ensures |held| == n <==> forall i: nat :: i < n ==> i in held
  {
    BelowMembers(n);
    var rest := Below(n) - held;
    assert Below(n) == held + rest;
    assert |Below(n)| == |held| + |rest|;
    assert rest == {} <==> forall i: nat :: i < n ==> i in held;
  }

  function FrameAddress(i: nat): nat { POOL_BASE + i * FRAME_SIZE }

  /** The frame an address names, if it is the address of a frame of the pool. */
  ghost predicate Names(addr: nat, i: nat) {
    i < 1024 && addr == 0x200000 + 4096 * i
  }

  class FrameAllocator {
    const bitmap: array<bv32>
    var framesFree: nat
    ghost var held: set<nat>

    ghost predicate Valid()
      reads this, bitmap
    {
      Represents(Bit, bitmap[..], held) && framesFree == FRAMES - |held|
    }

    constructor ()
      ensures Valid() && fresh(bitmap) && held == {}
    {
      bitmap := new bv32[WORDS];
      framesFree := FRAMES;
      held := {};
      new;
      for i := 0 to WORDS
        modifies bitmap
        invariant forall k :: 0 <= k < i ==> bitmap[k] == 0
      {
        bitmap[i] := 0;
      }
      ZeroWord();
      EmptyMap(Bit, bitmap[..], 0);
    }

    method IsFree(i: nat) returns (free: bool)
      requires Valid() && i < FRAMES
      ensures free <==> i !in held
    {
      var used := Bit(bitmap[i / 32], i % 32);
      free := !used;
    }

    method Mark(i: nat)
      requires Valid() && i < FRAMES && i !in held
      modifies this, bitmap
      ensures Valid() && held == old(held) + {i}
    {
      var w := bitmap[i / 32];
      var w' := w | (1 << (i % 32));
      SetWord(w, i % 32);
      WriteBit(Bit, bitmap[..], held, i, true, w');
      HeldBound(held + {i}, FRAMES);
      ghost var was := bitmap[..];
      bitmap[i / 32] := w';
      assert bitmap[..] == was[i / 32 := w'];
      framesFree := framesFree - 1;
      held := held + {i};
    }

    method Unmark(i: nat)
      requires Valid() && i < FRAMES && i in held
      modifies this, bitmap
      ensures Valid() && held == old(held) - {i}
    {
      var w := bitmap[i / 32];
      var w' := ClearIn(w, i % 32);
      WriteBit(Bit, bitmap[..], held, i, false, w');
      HeldBound(held, FRAMES);
      ghost var was := bitmap[..];
      bitmap[i / 32] := w';
      assert bitmap[..] == was[i / 32 := w'];
      framesFree := framesFree + 1;
      held := held - {i};
    }

    /** Hands out the lowest free frame, and 0 exactly when every frame is held. */
    method AllocFrame() returns (addr: nat)
      requires Valid()
      modifies this, bitmap
      ensures Valid()
      ensures addr == 0 <==> forall i: nat :: i < FRAMES ==> i in old(held)
      ensures addr == 0 ==> held == old(held)
      ensures addr != 0 ==> exists i ::
                Names(addr, i) && i !in old(held) && held == old(held) + {i}
                && forall j: nat :: j < i ==> j in old(held)
    {
      for i := 0 to FRAMES
        invariant Valid() && held == old(held)
        invariant forall j: nat :: j < i ==> j in held
      {
        var free := IsFree(i);
        if free {
          Mark(i);
          addr := POOL_BASE + i * FRAME_SIZE;
          assert Names(addr, i);
          return;
        }
      }
      addr := 0;
    }

    /** Releases a held frame; any other argument (below or above the pool, misaligned,
        already free) changes nothing. */
    method FreeFrame(addr: nat)
      requires Valid()
      modifies this, bitmap
      ensures Valid()
      ensures forall i :: Names(addr, i) ==> held == old(held) - {i}
      ensures (forall i :: !Names(addr, i)) ==> held == old(held)
    {
      if addr < POOL_BASE { return; }
      if addr % FRAME_SIZE != 0 { return; }
      var idx := (addr - POOL_BASE) / FRAME_SIZE;
      if idx >= FRAMES { return; }
      assert Names(addr, idx);
      var free := IsFree(idx);
      if free { return; }
      Unmark(idx);
    }

    method CountFree() returns (n: nat)
      requires Valid()
      ensures n == FRAMES - |held|
    {
      n := framesFree;
    }
  }
}
