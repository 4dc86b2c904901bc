/** Names, and tables searched by a bounded string comparison. */
module NamedTables {
  import opened Tables

  /** A C string: the characters before the terminator. */
  type CString = s: string | '\0' !in s witness ""

  const KEY_SIZE: nat := 64

  /** Every stored key fits its field. */
  ghost predicate KeysFit<V>(m: map<CString, V>) {
    forall k :: k in m ==> |k| < KEY_SIZE
  }

  /** The character at position i of the array behind a C string. */
  function CharAt(s: CString, i: nat): char
    requires i <= |s|
  {
    if i < |s| then s[i] else '\0'
  }

  /** Compares at most 64 characters and stops at the terminator. For a stored key, which is
      shorter than that, this is equality. */
  method KeyEqual(a: CString, b: CString) returns (eq: bool)
    ensures eq <==> a == b || (|a| >= KEY_SIZE && |b| >= KEY_SIZE && a[..KEY_SIZE] == b[..KEY_SIZE])
  {
    for i := 0 to KEY_SIZE
      invariant i <= |a| && i <= |b| && a[..i] == b[..i]
    {
      if CharAt(a, i) != CharAt(b, i) {
        assert a == b ==> false;
        return false;
      }
      if CharAt(a, i) == '\0' {
        assert i == |a| && i == |b|;
        assert a == a[..i] && b == b[..i];
        return true;
      }
      assert a[..i + 1] == a[..i] + [a[i]] && b[..i + 1] == b[..i] + [b[i]];
    }
    return true;
  }

  /** Finds the entry of a key, or -1 if the map lacks it. */
  method Find<V>(t: array<Cell<CString, V>>, key: CString) returns (i: int)
    requires Keyed(t[..]) && KeysFit(ToMap(t[..]))
    ensures -1 <= i < t.Length
    ensures i == -1 <==> key !in ToMap(t[..])
    ensures i != -1 ==> t[i].inUse && t[i].key == key && t[i].value == ToMap(t[..])[key]
  {
    for j := 0 to t.Length
      invariant forall k :: 0 <= k < j && t[k].inUse ==> t[k].key != key
    {
      if t[j].inUse {
        assert t[..][j] == t[j];
        Member(t[..], j);
        var eq := KeyEqual(t[j].key, key);
        if eq { return j; }
      }
    }
    Missing(t[..], key);
    return -1;
  }
}

/** The checkpoint store: snapshots of registered memory regions, keyed by name. */
module Checkpoints {
  import opened Memory
  import opened Tables
  import opened NamedTables

  type Byte = bv8

  const MAX_CHECKPOINTS: nat := 16
  const CHECKPOINT_SIZE: nat := 4096

  /** A stretch of kernel memory. Regions may overlap. */
  datatype Region = Region(addr: nat, size: nat)

  // ------------------------------------------------------------------ reference

  /** The store as two finite maps over a flat memory. */
  datatype Store = Store(
    buffers: map<CString, Region>,
    checkpoints: map<CString, seq<Byte>>,
    mem: seq<Byte>,
    nextId: nat)

  ghost predicate StoreOk(s: Store) {
    && |s.buffers| <= MAX_CHECKPOINTS && |s.checkpoints| <= MAX_CHECKPOINTS
    && KeysFit(s.buffers) && KeysFit(s.checkpoints)
    && (forall k :: k in s.buffers ==>
          0 < s.buffers[k].size <= CHECKPOINT_SIZE && s.buffers[k].addr + s.buffers[k].size <= |s.mem|)
  }

  function BytesOf(s: Store, r: Region): seq<Byte> {
    if r.addr + r.size <= |s.mem| then s.mem[r.addr..r.addr + r.size] else []
  }

  function TakeId(s: Store): Store { s.(nextId := s.nextId + 1) }

  /** A checkpoint can be taken under this name: the name is in use, or there is room and
      the name fits its field. */
  predicate HasRoom(checkpoints: map<CString, seq<Byte>>, name: CString) {
    name in checkpoints || (|checkpoints| < MAX_CHECKPOINTS && |name| < KEY_SIZE)
  }

  function Create(s: Store, src: CString, dst: CString): (Store, int) {
    if src !in s.buffers || !HasRoom(s.checkpoints, dst) then (s, -1)
    else (TakeId(s.(checkpoints := s.checkpoints[dst := BytesOf(s, s.buffers[src])])), 0)
  }

  function Restore(s: Store, src: CString, dst: CString): (Store, int) {
    if src !in s.checkpoints || dst !in s.buffers || |s.checkpoints[src]| > s.buffers[dst].size then (s, -1)
    else (TakeId(s.(mem := Written(s.mem, s.buffers[dst].addr, s.checkpoints[src]))), 0)
  }

  function Remove(s: Store, name: CString): (Store, int) {
    if name !in s.checkpoints then (s, -1)
    else (TakeId(s.(checkpoints := Without(s.checkpoints, name))), 0)
  }

  function Register(s: Store, key: CString, r: Region): (Store, int) {
    if r.size == 0 || r.size > CHECKPOINT_SIZE || |key| >= KEY_SIZE then (s, -1)
    else if key !in s.buffers && |s.buffers| >= MAX_CHECKPOINTS then (s, -1)
    else (s.(buffers := s.buffers[key := r]), 0)
  }

  // ------------------------------------------------------------------- the code

  class Storage {
    const buffers: array<Cell<CString, Region>>
    const slots: array<Cell<CString, seq<Byte>>>
    var mem: seq<Byte>
    var nextId: nat

    ghost predicate Valid()
      reads this, buffers, slots
    {
      && buffers.Length == MAX_CHECKPOINTS && slots.Length == MAX_CHECKPOINTS
      && buffers as object != slots
      && Keyed(buffers[..]) && Keyed(slots[..])
      && StoreOk(View())
    }

    ghost function View(): Store
      reads this, buffers, slots
    {
      Store(ToMap(buffers[..]), ToMap(slots[..]), mem, nextId)
    }

    constructor (memory: seq<Byte>)
      ensures Valid() && fresh(buffers) && fresh(slots)
      ensures View() == Store(map[], map[], memory, 1)
    {
      buffers := new Cell<CString, Region>[MAX_CHECKPOINTS](_ => Cell("", false, Region(0, 0)));
      slots := new Cell<CString, seq<Byte>>[MAX_CHECKPOINTS](_ => Cell("", false, []));
      mem, nextId := memory, 1;
      new;
      Blank(buffers[..]);
      Blank(slots[..]);
    }

    method GenerateId() returns (id: nat)
      modifies this`nextId
      ensures id == old(nextId) && nextId == id + 1
    {
      id := nextId;
      nextId := nextId + 1;
    }

    method RegisterBuffer(key: CString, r: Region) returns (rv: int)
      requires Valid() && r.addr + r.size <= |mem|
      modifies buffers
      ensures Valid() && (View(), rv) == Register(old(View()), key, r)
    {
      if r.size == 0 || r.size > CHECKPOINT_SIZE { return -1; }
      if |key| >= KEY_SIZE { return -1; }
      RegisterOk(View(), key, r);
      ghost var was := buffers[..];
      var i := Find(buffers, key);
      if i != -1 {
        Overwrite(was, i, r);
        buffers[i] := buffers[i].(value := r);
        assert buffers[..] == was[i := was[i].(value := r)];
        return 0;
      }
      i := FindFree(buffers);
      if i == -1 { return -1; }
      Insert(was, i, key, r);
      buffers[i] := Cell(key, true, r);
      assert buffers[..] == was[i := Cell(key, true, r)];
      return 0;
    }

    /** The slot that a checkpoint named `key` goes to, or -1. A new slot is claimed, with
        its old contents still in it. */
    method AcquireSlot(key: CString) returns (i: int)
      requires slots.Length == MAX_CHECKPOINTS && Keyed(slots[..]) && KeysFit(ToMap(slots[..]))
      modifies slots
      ensures Keyed(slots[..]) && -1 <= i < MAX_CHECKPOINTS
      ensures i != -1 <==> HasRoom(ToMap(old(slots[..])), key)
      ensures i == -1 ==> slots[..] == old(slots[..])
      ensures i != -1 ==> slots[i].inUse && slots[i].key == key
                          && ToMap(slots[..]) == ToMap(old(slots[..]))[key := slots[i].value]
    {
      i := Find(slots, key);
      if i != -1 { return; }
      ghost var was := slots[..];
      i := FindFree(slots);
      if i == -1 || |key| >= KEY_SIZE { return -1; }
      Insert(was, i, key, slots[i].value);
      slots[i] := slots[i].(key := key, inUse := true);
      assert slots[..] == was[i := Cell(key, true, was[i].value)];
    }

    method ReadBuffer(src: CString) returns (found: bool, data: seq<Byte>)
      requires Valid()
      ensures found == (src in View().buffers)
      ensures found ==> data == BytesOf(View(), View().buffers[src])
    {
      var b := Find(buffers, src);
      if b == -1 { return false, []; }
      var r := buffers[b].value;
      return true, mem[r.addr..r.addr + r.size];
    }

    method CreateCheckpoint(src: CString, dst: CString) returns (rv: int)
      requires Valid()
      modifies this`nextId, slots
      ensures Valid() && (View(), rv) == Create(old(View()), src, dst)
    {
      CreateOk(View(), src, dst);
      var found, data := ReadBuffer(src);
      if !found { return -1; }
      var i := AcquireSlot(dst);
      if i == -1 { return -1; }
      ghost var was := slots[..];
      UpdateTwice(ToMap(old(slots[..])), dst, slots[i].value, data);
      Overwrite(was, i, data);
      slots[i] := slots[i].(value := data);
      assert slots[..] == was[i := was[i].(value := data)];
      var _ := GenerateId();
      return 0;
    }

    method CopyIn(addr: nat, data: seq<Byte>)
      requires addr + |data| <= |mem|
      modifies this`mem
      ensures mem == Written(old(mem), addr, data)
    {
      for i := 0 to |data|
        invariant |mem| == |old(mem)|
        invariant forall k :: 0 <= k < |mem| ==>
                    mem[k] == if addr <= k < addr + i then data[k - addr] else old(mem)[k]
      {
        mem := mem[addr + i := data[i]];
      }
    }

    method RestoreCheckpoint(src: CString, dst: CString) returns (rv: int)
      requires Valid()
      modifies this`nextId, this`mem
      ensures Valid() && (View(), rv) == Restore(old(View()), src, dst)
    {
      var i := Find(slots, src);
      if i == -1 { return -1; }
      var b := Find(buffers, dst);
      if b == -1 { return -1; }
      if |slots[i].value| > buffers[b].value.size { return -1; }
      CopyIn(buffers[b].value.addr, slots[i].value);
      var _ := GenerateId();
      return 0;
    }

    method RemoveCheckpoint(name: CString) returns (rv: int)
      requires Valid()
      modifies this`nextId, slots
      ensures Valid() && (View(), rv) == Remove(old(View()), name)
    {
      RemoveOk(View(), name);
      var i := Find(slots, name);
      if i == -1 { return -1; }
      ghost var was := slots[..];
      var freed := slots[i].(inUse := false, value := []);
      Delete(was, i, freed);
      slots[i] := freed;
      assert slots[..] == was[i := freed];
      var _ := GenerateId();
      return 0;
    }
  }

  // ------------------------------------------------------------- laws of the store

  datatype Op =
    | OpCreate(src: CString, dst: CString)
    | OpRestore(src: CString, dst: CString)
    | OpRemove(name: CString)
    | OpRegister(key: CString, region: Region)
    | OpWrite(addr: nat, data: seq<Byte>)       // any other code writing memory

  predicate InBounds(s: Store, op: Op) {
    match op
    case OpRegister(_, r) => r.addr + r.size <= |s.mem|
    case OpWrite(a, d) => a + |d| <= |s.mem|
    case _ => true
  }

  function Apply(s: Store, op: Op): Store {
    if !InBounds(s, op) then s else
    match op
    case OpCreate(a, b) => Create(s, a, b).0
    case OpRestore(a, b) => Restore(s, a, b).0
    case OpRemove(a) => Remove(s, a).0
    case OpRegister(k, r) => Register(s, k, r).0
    case OpWrite(a, d) => s.(mem := Written(s.mem, a, d))
  }

  lemma CreateOk(s: Store, src: CString, dst: CString)
    requires StoreOk(s)
    ensures StoreOk(Create(s, src, dst).0)
  {
    if src in s.buffers { MapSizes(s.checkpoints, dst, BytesOf(s, s.buffers[src])); }
  }

  lemma RemoveOk(s: Store, name: CString)
    requires StoreOk(s)
    ensures StoreOk(Remove(s, name).0)
  {
    MapSizes(s.checkpoints, name, []);
  }

  lemma RegisterOk(s: Store, key: CString, r: Region)
    requires StoreOk(s) && r.addr + r.size <= |s.mem|
    ensures StoreOk(Register(s, key, r).0)
  {
    MapSizes(s.buffers, key, r);
  }

  lemma ApplyOk(s: Store, op: Op)
    requires StoreOk(s)
    ensures StoreOk(Apply(s, op)) && |Apply(s, op).mem| == |s.mem|
  {
    match op {
      case OpCreate(a, b) => CreateOk(s, a, b);
      case OpRestore(a, b) =>
      case OpRemove(a) => RemoveOk(s, a);
      case OpRegister(k, r) => if InBounds(s, op) { RegisterOk(s, k, r); }
      case OpWrite(a, d) =>
    }
  }

  ghost function RunOps(s: Store, ops: seq<Op>): (t: Store)
    requires StoreOk(s)
    ensures StoreOk(t) && |t.mem| == |s.mem|
    decreases |ops|
  {
    if ops == [] then s else
      var t := RunOps(s, ops[..|ops| - 1]);
      ApplyOk(t, ops[|ops| - 1]);
      Apply(t, ops[|ops| - 1])
  }

  /** When each operation succeeds. */
  lemma SucceedsIff(s: Store, a: CString, b: CString, r: Region)
    ensures Create(s, a, b).1 == 0 <==>
              a in s.buffers && (b in s.checkpoints || (|s.checkpoints| < 16 && |b| < 64))
    ensures Restore(s, a, b).1 == 0 <==>
              a in s.checkpoints && b in s.buffers && |s.checkpoints[a]| <= s.buffers[b].size
    ensures Remove(s, a).1 == 0 <==> a in s.checkpoints
    ensures Register(s, a, r).1 == 0 <==>
              0 < r.size <= 4096 && |a| < 64 && (a in s.buffers || |s.buffers| < 16)
  {}

  /** A key that is registered again names its new region from then on: a checkpoint taken of it
      holds the bytes there. */
  lemma RebindTakesEffect(s: Store, key: CString, r: Region, name: CString)
    requires r.addr + r.size <= |s.mem| && Register(s, key, r).1 == 0
    requires name in s.checkpoints || (|s.checkpoints| < 16 && |name| < 64)
    ensures var t := Register(s, key, r).0;
            && t.checkpoints == s.checkpoints && t.mem == s.mem
            && Create(t, key, name).1 == 0
            && Create(t, key, name).0.checkpoints[name] == s.mem[r.addr..r.addr + r.size]
  {
    var t := Register(s, key, r).0;
    assert t.buffers[key] == r;
  }

  /** Every other key keeps its region. */
  lemma RebindLeavesOthers(s: Store, key: CString, r: Region, other: CString)
    requires other != key
    ensures var t := Register(s, key, r).0;
            && (other in t.buffers <==> other in s.buffers)
            && (other in s.buffers ==> t.buffers[other] == s.buffers[other])
  {}

  /** The operation leaves the checkpoint `name` and the buffer `key` bound as they are. */
  predicate LeavesAlone(op: Op, name: CString, key: CString) {
    match op
    case OpCreate(_, dst) => dst != name
    case OpRemove(n) => n != name
    case OpRegister(k, _) => k != key
    case _ => true
  }

  lemma {:induction false} BindingsSurvive(s: Store, ops: seq<Op>, name: CString, key: CString)
    requires StoreOk(s) && name in s.checkpoints && key in s.buffers
    requires forall i :: 0 <= i < |ops| ==> LeavesAlone(ops[i], name, key)
    ensures var t := RunOps(s, ops);
            && name in t.checkpoints && t.checkpoints[name] == s.checkpoints[name]
            && key in t.buffers && t.buffers[key] == s.buffers[key]
    decreases |ops|
  {
    if ops != [] { BindingsSurvive(s, ops[..|ops| - 1], name, key); }
  }

  /** A checkpoint is a snapshot: whatever is written to memory and whatever happens to other
      checkpoints and buffers in between, restoring it brings back the bytes that were there
      when it was taken, and nothing outside the region changes. */
  lemma RestoreReturnsSnapshot(s: Store, key: CString, name: CString, ops: seq<Op>)
    requires StoreOk(s) && Create(s, key, name).1 == 0
    requires forall i :: 0 <= i < |ops| ==> LeavesAlone(ops[i], name, key)
    ensures var r := s.buffers[key];
            StoreOk(Create(s, key, name).0) &&
            var t := RunOps(Create(s, key, name).0, ops);
            var (u, rv) := Restore(t, name, key);
            && rv == 0
            && BytesOf(u, r) == BytesOf(s, r)
            && forall i :: 0 <= i < |t.mem| && !(r.addr <= i < r.addr + r.size) ==> u.mem[i] == t.mem[i]
  {
    CreateOk(s, key, name);
    BindingsSurvive(Create(s, key, name).0, ops, name, key);
  }

  /** Creating and removing a new checkpoint is undone as far as the maps and memory go. */
  lemma CreateThenRemove(s: Store, key: CString, name: CString)
    requires StoreOk(s) && Create(s, key, name).1 == 0
    ensures var (t, rv) := Remove(Create(s, key, name).0, name);
            && rv == 0 && t.buffers == s.buffers && t.mem == s.mem
            && (t.checkpoints == s.checkpoints <==> name !in s.checkpoints)
  {
    var t := Remove(Create(s, key, name).0, name).0;
    assert t.checkpoints == Without(s.checkpoints, name);
  }
}
