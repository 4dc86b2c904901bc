/** The name under which an update keeps its checkpoint. */
module UpdateKeys {
  import opened NamedTables

  const SUFFIX: string := ".checkpoint-"

  // ------------------------------------------------------------------ reference

  function Digit(d: nat): (c: char)
    requires d < 10
    ensures c != '\0'
  {
    "0123456789"[d]
  }

  /** The decimal numeral of n. */
  function Decimal(n: nat): (s: string)
    ensures |s| > 0 && '\0' !in s
    decreases n
  {
    if n < 10 then [Digit(n)] else Decimal(n / 10) + [Digit(n % 10)]
  }

  function Clip(s: CString): CString {
    if |s| <= 200 then s else s[..200]
  }

  /** The checkpoint name of a path and a transaction id, of which it shows the low 32 bits. */
  function CheckpointName(path: CString, id: nat): CString {
    Clip(path) + SUFFIX + Decimal(id % 0x1_0000_0000)
  }

  predicate IsDigit(c: char) { '0' <= c <= '9' }

  lemma {:induction false} DecimalIsDigits(n: nat)
    ensures forall i :: 0 <= i < |Decimal(n)| ==> IsDigit(Decimal(n)[i])
    decreases n
  {
    if n >= 10 { DecimalIsDigits(n / 10); }
  }

  lemma {:induction false} DecimalInjective(m: nat, n: nat)
    requires Decimal(m) == Decimal(n)
    ensures m == n
    decreases m
  {
    var s, t := Decimal(m), Decimal(n);
    if m >= 10 && n >= 10 {
      assert s[..|s| - 1] == Decimal(m / 10) && t[..|t| - 1] == Decimal(n / 10);
      assert s[|s| - 1] == Digit(m % 10) && t[|t| - 1] == Digit(n % 10);
      DecimalInjective(m / 10, n / 10);
    }
  }

  /** The number a numeral stands for. */
  function NumberOf(s: string): int
    decreases |s|
  {
    if s == "" then 0 else 10 * NumberOf(s[..|s| - 1]) + (s[|s| - 1] as int - '0' as int)
  }

  lemma {:induction false} DecimalStands(n: nat)
    ensures NumberOf(Decimal(n)) == n
    decreases n
  {
    var s := Decimal(n);
    assert s[|s| - 1] == Digit(n % 10) && Digit(n % 10) as int - '0' as int == n % 10;
    if n >= 10 {
      DecimalStands(n / 10);
      assert s[..|s| - 1] == Decimal(n / 10);
    } else {
      assert s[..0] == "";
    }
  }

  /** Behind its last dash a name holds the numeral and nothing else. */
  lemma LastDash(p: string, d: string)
    requires forall i :: 0 <= i < |d| ==> IsDigit(d[i])
    ensures var s := p + SUFFIX + d; s[|p| + 11] == '-' && forall j :: |p| + 11 < j < |s| ==> IsDigit(s[j])
  {
    var s := p + SUFFIX + d;
    assert SUFFIX[11] == '-' && |SUFFIX| == 12;
    forall j | |p| + 11 < j < |s| ensures IsDigit(s[j]) { assert s[j] == d[j - |p| - 12]; }
  }

  lemma SplitAtDash(p: string, q: string, d: string, e: string)
    requires p + SUFFIX + d == q + SUFFIX + e
    requires forall i :: 0 <= i < |d| ==> IsDigit(d[i])
    requires forall i :: 0 <= i < |e| ==> IsDigit(e[i])
    ensures p == q && d == e
  {
    var s := p + SUFFIX + d;
    var t := q + SUFFIX + e;
    LastDash(p, d);
    LastDash(q, e);
    assert |p| == |q|;
    assert s[..|p|] == p && t[..|q|] == q;
    assert s[|p| + 12..] == d && t[|q| + 12..] == e;
  }

  /** Two names coincide exactly when the clipped paths and the low 32 bits of the ids do, so
      ids below 2^32 never collide. */
  lemma NamesDistinct(p: CString, q: CString, a: nat, b: nat)
    ensures CheckpointName(p, a) == CheckpointName(q, b)
            <==> Clip(p) == Clip(q) && a % 0x1_0000_0000 == b % 0x1_0000_0000
  {
    var m, n := a % 0x1_0000_0000, b % 0x1_0000_0000;
    DecimalIsDigits(m);
    DecimalIsDigits(n);
    if CheckpointName(p, a) == CheckpointName(q, b) {
      SplitAtDash(Clip(p), Clip(q), Decimal(m), Decimal(n));
      DecimalInjective(m, n);
    }
  }

  /** A name built from a new id is not in a table whose names all come from older ids, as
      long as the ids stay below 2^32. */
  lemma FreshNameAbsent<V>(m: map<CString, V>, path: CString, id: nat)
    requires id < 0x1_0000_0000
    requires forall k :: k in m ==> exists p: CString, i: nat :: i < id && k == CheckpointName(p, i)
    ensures CheckpointName(path, id) !in m
  {
    if CheckpointName(path, id) in m {
      var p: CString, i: nat :| i < id && CheckpointName(path, id) == CheckpointName(p, i);
      NamesDistinct(path, p, id, i);
    }
  }

  // ------------------------------------------------------------------- the code

  /** A digit buffer read from its end. */
  function Backwards(buf: string): (s: string)
    ensures |s| == |buf|
  {
    seq(|buf|, i requires 0 <= i < |buf| => buf[|buf| - 1 - i])
  }

  lemma BackwardsMore(buf: string, c: char)
    ensures Backwards(buf + [c]) == [c] + Backwards(buf)
  {}

  function Pow10(n: nat): nat { if n == 0 then 1 else 10 * Pow10(n - 1) }

  lemma SmallQuotient(n: nat, k: nat)
    requires k > 0 && n < Pow10(k)
    ensures n / 10 < Pow10(k - 1)
  {}

  lemma Ten32()
    ensures 0x1_0000_0000 <= Pow10(10)
  {
    assert Pow10(5) == 100000;
    assert Pow10(10) == 10_000_000_000;
  }

  /** Collects the digits of a 32-bit number, lowest first, in a buffer of ten: enough for
      every such number. */
  method DigitsBackwards(n: nat) returns (buf: string)
    requires n < 0x1_0000_0000
    ensures 0 < |buf| <= 10 && Backwards(buf) == Decimal(n)
  {
    var rest: nat := n / 10;
    buf := [Digit(n % 10)];
    FewDigits(n);
    DecimalStep(n);
    while rest != 0 && |buf| < 10
      invariant 0 < |buf| <= 10 && rest < Pow10(10 - |buf|)
      invariant Decimal(n) == Numeral(rest) + Backwards(buf)
      decreases rest
    {
      SmallQuotient(rest, 10 - |buf|);
      DecimalStep(rest);
      BackwardsMore(buf, Digit(rest % 10));
      Regroup(Numeral(rest / 10), [Digit(rest % 10)], Backwards(buf));
      buf := buf + [Digit(rest % 10)];
      rest := rest / 10;
    }
  }

  lemma Regroup(a: string, b: string, c: string)
    ensures (a + b) + c == a + (b + c)
  {}

  /** The numeral of n, or nothing for 0. */
  function Numeral(n: nat): string { if n == 0 then [] else Decimal(n) }

  lemma DecimalStep(n: nat)
    ensures Decimal(n) == Numeral(n / 10) + [Digit(n % 10)]
  {}

  lemma FewDigits(n: nat)
    requires n < 0x1_0000_0000
    ensures n / 10 < Pow10(9)
  {
    Ten32();
    SmallQuotient(n, 10);
  }

  /** Copies a C string behind `stem`, up to a bound on the whole. */
  method AppendUpTo(stem: string, s: string, bound: nat) returns (out: string)
    requires |stem| <= bound
    ensures out == stem + if |stem| + |s| <= bound then s else s[..bound - |stem|]
  {
    out := stem;
    var i := 0;
    while i < |s| && |out| < bound
      invariant 0 <= i <= |s| && |out| == |stem| + i <= bound && out == stem + s[..i]
    {
      assert s[..i + 1] == s[..i] + [s[i]];
      out := out + [s[i]];
      i := i + 1;
    }
    assert s[..|s|] == s;
  }

  /** Copies a buffer behind `stem` back to front. */
  method AppendBackwards(stem: string, s: string) returns (out: string)
    requires |stem| + |s| <= 255
    ensures out == stem + Backwards(s)
  {
    out := stem;
    if s == [] { return; }
    var j := |s| - 1;
    while j >= 0 && |out| < 255
      invariant -1 <= j < |s| && |out| == |stem| + |s| - 1 - j
      invariant out == stem + Backwards(s)[..|s| - 1 - j]
    {
      assert Backwards(s)[..|s| - j] == Backwards(s)[..|s| - 1 - j] + [s[j]];
      out := out + [s[j]];
      j := j - 1;
    }
    assert Backwards(s)[..|s|] == Backwards(s);
  }

  lemma NameParts(path: CString, id: nat)
    ensures var name, n := CheckpointName(path, id), if |path| < 200 then |path| else 200;
            && |name| > n + 12 && name[..n] == path[..n] && name[n..n + 12] == ".checkpoint-"
            && NumberOf(name[n + 12..]) == id % 0x1_0000_0000
  {
    var p, d := Clip(path), Decimal(id % 0x1_0000_0000);
    ThreeParts(p, SUFFIX, d);
    DecimalStands(id % 0x1_0000_0000);
    assert p == path[..|p|];
  }

  lemma ThreeParts(a: string, b: string, c: string)
    ensures var s := a + b + c; s[..|a|] == a && s[|a|..|a| + |b|] == b && s[|a| + |b|..] == c
  {}

  /** Builds the name in a 256-byte buffer. None of the bounds inside cuts anything but the
      path short. */
  method BuildName(path: CString, id: nat) returns (name: string)
    ensures name == CheckpointName(path, id) && |name| < 256
    ensures var n := if |path| < 200 then |path| else 200;
            && |name| > n + 12 && name[..n] == path[..n] && name[n..n + 12] == ".checkpoint-"
            && NumberOf(name[n + 12..]) == id % 0x1_0000_0000
  {
    NameParts(path, id);
    name := AppendUpTo("", path, 200);
    assert name == Clip(path);
    name := AppendUpTo(name, SUFFIX, 255);
    assert name == Clip(path) + SUFFIX;
    var digits := DigitsBackwards(id % 0x1_0000_0000);
    name := AppendBackwards(name, digits);
  }
}

/** The update pipeline: five workflow steps over the checkpoint store. */
module Update {
  import opened Tables
  import opened NamedTables
  import opened Memory
  import opened Checkpoints
  import opened UpdateKeys
  import opened WorkflowSpec
  import opened WorkflowEngine
  import opened WorkflowLaws

  const MAX_UPDATE_SIZE: nat := 1024 * 1024
  const STAGE_SIZE: nat := 65536

  datatype UpdateStatus =
    | Init | Checkpointing | Verifying | Sandboxing | Testing | Committing | Complete | Rollback | Error

  /** What an update is about; the steps' context pointer leads here. */
  datatype Tx = Tx(path: CString, checkpoint: CString, image: seq<Byte>, hash: nat)

  /** The state the steps work on: the store behind the installed backend (if any), the
      sandbox staging area, and the fields of the update state they write. */
  datatype World = World(
    store: Store, installed: bool, stage: seq<Byte>, status: UpdateStatus)

  function NextId(w: World): (World, nat) {
    (w.(store := TakeId(w.store)), w.store.nextId)
  }

  // ------------------------------------------------------------------ the steps

  function RunCheckpoint(tx: Tx, w: World): (World, int) {
    var v := w.(status := Checkpointing);
    if !w.installed then (v, -1)
    else
      var (s, rv) := Create(w.store, tx.path, tx.checkpoint);
      (v.(store := s), if rv != 0 then -1 else 0)
  }

  function UndoCheckpoint(tx: Tx, w: World): (World, int) {
    if !w.installed then (w, -1)
    else var (s, rv) := Remove(w.store, tx.checkpoint); (w.(store := s), rv)
  }

  predicate Signed(tx: Tx, digest: seq<Byte> -> nat) {
    tx.image != [] && digest(tx.image) == tx.hash
  }

  predicate Stageable(image: seq<Byte>) {
    64 <= |image| <= STAGE_SIZE &&
    image[0] == 0x7F && image[1] == 0x45 && image[2] == 0x4C && image[3] == 0x46
  }

  function RunVerify(tx: Tx, digest: seq<Byte> -> nat, w: World): (World, int) {
    (w.(status := Verifying), if Signed(tx, digest) then 0 else -1)
  }

  function RunSandbox(tx: Tx, w: World): (World, int) {
    var v := w.(status := Sandboxing);
    if Stageable(tx.image) then (v.(stage := Written(w.stage, 0, tx.image)), 0) else (v, -1)
  }

  function RunTest(w: World): (World, int) {
    (w.(status := Testing), 0)
  }

  function RunInstall(w: World): (World, int) {
    (w.(status := Committing), 0)
  }

  function UndoInstall(tx: Tx, w: World): (World, int) {
    if !w.installed then (w, -1)
    else
      var (s, rv) := Restore(w.store, tx.checkpoint, tx.path);
      (w.(store := s), if rv != 0 then -1 else 0)
  }

  function Steps(tx: Tx, digest: seq<Byte> -> nat): seq<Step<World>> {
    [Step("checkpoint", Fn(w => RunCheckpoint(tx, w)), Fn(w => UndoCheckpoint(tx, w))),
     Step("verify", Fn(w => RunVerify(tx, digest, w)), Null),
     Step("sandbox", Fn(w => RunSandbox(tx, w)), Null),
     Step("test", Fn(w => RunTest(w)), Null),
     Step("install", Fn(w => RunInstall(w)), Fn(w => UndoInstall(tx, w)))]
  }

  // ------------------------------------------------------ what an update comes to

  predicate CanCheckpoint(tx: Tx, w: World) {
    w.installed && tx.path in w.store.buffers && HasRoom(w.store.checkpoints, tx.checkpoint)
  }

  predicate Passes(tx: Tx, digest: seq<Byte> -> nat, w: World) {
    CanCheckpoint(tx, w) && Signed(tx, digest) && Stageable(tx.image)
  }

  /** The part of the world an update must leave alone. */
  predicate SameState(u: World, v: World) {
    && u.store.buffers == v.store.buffers
    && u.store.checkpoints == v.store.checkpoints
    && u.store.mem == v.store.mem
    && u.installed == v.installed
  }

  /** The checkpoint step can be taken: there is a backend, it knows the path, and the name is in
      use or is short enough and there is room. */
  lemma CanCheckpointIff(tx: Tx, w: World)
    ensures CanCheckpoint(tx, w) <==>
              && w.installed && tx.path in w.store.buffers
              && (tx.checkpoint in w.store.checkpoints || (|w.store.checkpoints| < 16 && |tx.checkpoint| < 64))
  {}

  /** The four bytes every image begins with. */
  lemma MagicIff(image: seq<Byte>)
    requires |image| >= 4
    ensures image[..4] == [0x7F, 0x45, 0x4C, 0x46] <==>
              image[0] == 0x7F && image[1] == 0x45 && image[2] == 0x4C && image[3] == 0x46
  {
    var head := image[..4];
    assert head[0] == image[0] && head[1] == image[1] && head[2] == image[2] && head[3] == image[3];
  }

  /** How far the pipeline gets: to the checkpoint, to the signature, to the sandbox, or through. */
  lemma FirstFailureOf(tx: Tx, digest: seq<Byte> -> nat, w: World)
    ensures FirstFailure(Steps(tx, digest), w)
            == if !(&& w.installed && tx.path in w.store.buffers
                    && (tx.checkpoint in w.store.checkpoints || (|w.store.checkpoints| < 16 && |tx.checkpoint| < 64))) then 0
               else if tx.image == [] || digest(tx.image) != tx.hash then 1
               else if !(64 <= |tx.image| <= 65536 && tx.image[..4] == [0x7F, 0x45, 0x4C, 0x46]) then 2
               else 5
  {
    FailsAt(tx, digest, w);
    CanCheckpointIff(tx, w);
    if |tx.image| >= 4 { MagicIff(tx.image); }
  }

  lemma FailsAt(tx: Tx, digest: seq<Byte> -> nat, w: World)
    ensures FirstFailure(Steps(tx, digest), w)
            == if !CanCheckpoint(tx, w) then 0
               else if !Signed(tx, digest) then 1
               else if !Stageable(tx.image) then 2
               else 5
  {
    var s := Steps(tx, digest);
    assert RunCode(s, w, 0) == 0 <==> CanCheckpoint(tx, w);
    assert RunCode(s, w, 1) == 0 <==> Signed(tx, digest);
    assert RunCode(s, w, 2) == 0 <==> Stageable(tx.image);
    assert RunCode(s, w, 3) == 0 && RunCode(s, w, 4) == 0;
  }

  /** The worlds along the pipeline differ from the one behind the checkpoint step only in
      the status and, behind the sandbox step, the staging area. */
  lemma WorldsOf(tx: Tx, digest: seq<Byte> -> nat, w: World, k: nat)
    requires 0 < k <= 5 && CanCheckpoint(tx, w)
    ensures var v := After(Steps(tx, digest), w, k);
            && v.store == Create(w.store, tx.path, tx.checkpoint).0
            && v.installed
            && v.stage == if k > 2 && Stageable(tx.image) then Written(w.stage, 0, tx.image) else w.stage
  {
    var s := Steps(tx, digest);
    assert After(s, w, 1) == RunCheckpoint(tx, w).0;
    if k > 1 { assert After(s, w, 2) == RunVerify(tx, digest, After(s, w, 1)).0; }
    if k > 2 { assert After(s, w, 3) == RunSandbox(tx, After(s, w, 2)).0; }
    if k > 3 { assert After(s, w, 4) == RunTest(After(s, w, 3)).0; }
    if k > 4 { assert After(s, w, 5) == RunInstall(After(s, w, 4)).0; }
  }

  /** What the steps do to the state: which status each leaves, what the checkpoint step keeps, and
      what the undo of the install step writes back, whatever has been written since. */
  lemma StepStatuses(tx: Tx, digest: seq<Byte> -> nat, w: World, k: nat)
    requires k < 5
    ensures After(Steps(tx, digest), w, k + 1).status == [Checkpointing, Verifying, Sandboxing, Testing, Committing][k]
  {
    var s := Steps(tx, digest);
    assert After(s, w, k + 1) == s[k].run.Call(After(s, w, k)).0;
  }

  lemma CheckpointKeeps(tx: Tx, digest: seq<Byte> -> nat, w: World)
    requires CanCheckpoint(tx, w) && StoreOk(w.store)
    ensures var (v, rv), r := Steps(tx, digest)[0].run.Call(w), w.store.buffers[tx.path];
            && rv == 0 && tx.checkpoint in v.store.checkpoints
            && v.store.checkpoints[tx.checkpoint] == w.store.mem[r.addr..r.addr + r.size]
  {}

  lemma InstallUndone(tx: Tx, digest: seq<Byte> -> nat, u: World)
    requires StoreOk(u.store)
    ensures var (v, rv), s := Steps(tx, digest)[4].undo.Call(u), u.store;
            && (rv == 0 <==> && u.installed && tx.checkpoint in s.checkpoints && tx.path in s.buffers
                             && |s.checkpoints[tx.checkpoint]| <= s.buffers[tx.path].size)
            && (rv == 0 ==>
                  var a, data := s.buffers[tx.path].addr, s.checkpoints[tx.checkpoint];
                  && |v.store.mem| == |s.mem| && v.store.mem[a..a + |data|] == data
                  && forall i :: 0 <= i < |s.mem| && !(a <= i < a + |data|) ==> v.store.mem[i] == s.mem[i])
  {}

  /** The store after a checkpoint has been taken and dropped again. */
  function Dropped(tx: Tx, s: Store): Store {
    s.(checkpoints := Without(s.checkpoints, tx.checkpoint), nextId := s.nextId + 2)
  }

  lemma CreateThenDrop(tx: Tx, w: World)
    requires CanCheckpoint(tx, w)
    ensures var v := Create(w.store, tx.path, tx.checkpoint).0;
            tx.checkpoint in v.checkpoints && Remove(v, tx.checkpoint) == (Dropped(tx, w.store), 0)
  {
    var v := Create(w.store, tx.path, tx.checkpoint).0;
    assert Without(v.checkpoints, tx.checkpoint) == Without(w.store.checkpoints, tx.checkpoint);
  }

  /** The undo chain below a failing step f: only the checkpoint step has something to undo. */
  lemma UnwoundOf(tx: Tx, digest: seq<Byte> -> nat, u: World, f: nat)
    requires f <= 4
    ensures var s := Steps(tx, digest);
            if f == 0 then Unwound(s, u, f, 0) == u && !UndoFails(s, u, f, 0)
            else && Unwound(s, u, f, 0) == UndoCheckpoint(tx, u).0
                 && (UndoFails(s, u, f, 0) <==> UndoCheckpoint(tx, u).1 != 0)
  {
    var s := Steps(tx, digest);
    if f > 0 {
      IdleUndos(tx, digest, u, f, 1);
      assert Unwound(s, u, f, 0) == s[0].undo.Call(Unwound(s, u, f, 1)).0;
    }
  }

  lemma {:induction false} IdleUndos(tx: Tx, digest: seq<Byte> -> nat, u: World, f: nat, j: nat)
    requires 1 <= j <= f <= 4
    ensures var s := Steps(tx, digest); Unwound(s, u, f, j) == u && !UndoFails(s, u, f, j)
    decreases f - j
  {
    if j < f {
      IdleUndos(tx, digest, u, f, j + 1);
      assert Steps(tx, digest)[j].undo.Null?;
    }
  }

  /** An update that does not pass rolls back, with every undo successful: memory, buffers and
      the staging area are untouched, and so are the checkpoints, except that one of the
      update's own name is gone if it could be taken. */
  lemma RejectedRunRollsBack(tx: Tx, digest: seq<Byte> -> nat, w: World)
    requires !Passes(tx, digest, w)
    ensures RunStatus(Steps(tx, digest), w) == RolledBack
    ensures var v := RunWorld(Steps(tx, digest), w);
            && v.store == (if CanCheckpoint(tx, w) then Dropped(tx, w.store) else w.store)
            && v.installed == w.installed && v.stage == w.stage
  {
    var s := Steps(tx, digest);
    FailsAt(tx, digest, w);
    var f := FirstFailure(s, w);
    var u := After(s, w, f + 1);
    UnwoundOf(tx, digest, u, f);
    if f == 0 {
      assert u == RunCheckpoint(tx, w).0;
    } else {
      WorldsOf(tx, digest, w, f + 1);
      CreateThenDrop(tx, w);
    }
  }

  /** An update that passes commits, with its checkpoint still in place. */
  lemma PassingRunCommits(tx: Tx, digest: seq<Byte> -> nat, w: World)
    requires Passes(tx, digest, w)
    ensures RunStatus(Steps(tx, digest), w) == Committed
    ensures var v := RunWorld(Steps(tx, digest), w);
            && v.store == Create(w.store, tx.path, tx.checkpoint).0
            && v.installed && v.stage == Written(w.stage, 0, tx.image)
  {
    FailsAt(tx, digest, w);
    WorldsOf(tx, digest, w, 5);
  }

  // --------------------------------------------------------------- apply_update

  /** An update goes through exactly when there is a backend that knows the path and has room for
      the name, the signature is the digest of the image, and the image has the size and the
      first four bytes of an ELF file. */
  lemma PassesIff(tx: Tx, digest: seq<Byte> -> nat, w: World)
    ensures Passes(tx, digest, w) <==>
              && w.installed && tx.path in w.store.buffers
              && (tx.checkpoint in w.store.checkpoints || (|w.store.checkpoints| < 16 && |tx.checkpoint| < 64))
              && digest(tx.image) == tx.hash
              && 64 <= |tx.image| <= 65536 && tx.image[..4] == [0x7F, 0x45, 0x4C, 0x46]
  {
    CanCheckpointIff(tx, w);
    if |tx.image| >= 4 { MagicIff(tx.image); }
  }

  /** The staging area with the image at its front. */
  lemma Staged(stage: seq<Byte>, image: seq<Byte>)
    requires |image| <= |stage|
    ensures Written(stage, 0, image) == image + stage[|image|..]
  {}

  /** The world an update ends in, given the one it found. */
  function Applied(tx: Tx, digest: seq<Byte> -> nat, w: World): World {
    var s := TakeId(w.store);
    w.(store := if CanCheckpoint(tx, w) then Dropped(tx, s) else s,
       stage := if Passes(tx, digest, w) then Written(w.stage, 0, tx.image) else w.stage,
       status := if Passes(tx, digest, w) then Complete else Rollback)
  }

  /** Runs an update through the workflow engine. It ends in ERROR only if the image is too
      large or no workflow slot is free, and then nothing has happened. */
  method ApplyUpdate(engine: Engine<World>, tx: Tx, digest: seq<Byte> -> nat, owner: nat) returns (rv: int)
    requires engine.Valid() && engine.takeId == NextId
    modifies engine`world, engine`trace, engine.table
    ensures engine.Valid() && engine.table[..] == old(engine.table[..])
    ensures var started := |tx.image| <= MAX_UPDATE_SIZE
                           && exists i :: 0 <= i < MAX_ACTIVE && old(engine.table[i]).status.Idle?;
            && engine.world == (if started then Applied(tx, digest, old(engine.world))
                                else old(engine.world).(status := Error))
            && rv in {0, -1}
    ensures var w := old(engine.world);
            rv == 0 <==>
              && (exists i :: 0 <= i < 4 && old(engine.table[i]).status.Idle?)
              && w.installed && tx.path in w.store.buffers
              && (tx.checkpoint in w.store.checkpoints || (|w.store.checkpoints| < 16 && |tx.checkpoint| < 64))
              && digest(tx.image) == tx.hash
              && 64 <= |tx.image| <= 65536 && tx.image[..4] == [0x7F, 0x45, 0x4C, 0x46]
    ensures rv != 0 ==> engine.world.stage == old(engine.world.stage) && engine.world.status in {Rollback, Error}
    ensures rv == 0 ==> engine.world.status == Complete
    ensures rv == 0 && |tx.image| <= |old(engine.world.stage)| ==>
              engine.world.stage == tx.image + old(engine.world.stage)[|tx.image|..]
  {
    PassesIff(tx, digest, engine.world);
    if |tx.image| <= |engine.world.stage| { Staged(engine.world.stage, tx.image); }
    if |tx.image| > MAX_UPDATE_SIZE {
      engine.world := engine.world.(status := Error);
      return -1;
    }
    var wf := engine.Begin(Steps(tx, digest), owner);
    if wf == -1 {
      engine.world := engine.world.(status := Error);
      return -1;
    }
    rv := RunPipeline(engine, tx, digest, wf);
    assert engine.table[..] == old(engine.table[..]);
  }

  /** What the pipeline comes to in the world that it begins in. */
  function Concluded(tx: Tx, digest: seq<Byte> -> nat, w: World): World {
    w.(store := if CanCheckpoint(tx, w) then Dropped(tx, w.store) else w.store,
       stage := if Passes(tx, digest, w) then Written(w.stage, 0, tx.image) else w.stage,
       status := if Passes(tx, digest, w) then Complete else Rollback)
  }

  /** Runs the workflow of an update and gives its slot back. */
  method RunPipeline(engine: Engine<World>, tx: Tx, digest: seq<Byte> -> nat, wf: nat) returns (rv: int)
    requires engine.Valid() && wf < MAX_ACTIVE && engine.table[wf].status == Running
    requires engine.table[wf].steps == Steps(tx, digest) && engine.table[wf].done == 0
    modifies engine`world, engine`trace, engine.table
    ensures engine.Valid() && engine.table[..] == old(engine.table[..])[wf := Released()]
    ensures engine.world == Concluded(tx, digest, old(engine.world))
    ensures rv == if Passes(tx, digest, old(engine.world)) then 0 else -1
  {
    ghost var begun := engine.world;
    var code := engine.Run(wf);
    if Passes(tx, digest, begun) { PassingRunCommits(tx, digest, begun); } else { RejectedRunRollsBack(tx, digest, begun); }
    if code == 0 {
      CreateThenDrop(tx, begun);
      if engine.world.installed {
        var (store, _) := Remove(engine.world.store, tx.checkpoint);
        engine.world := engine.world.(store := store);
      }
      engine.world := engine.world.(status := Complete);
      engine.Release(wf);
      return 0;
    }
    assert !engine.table[wf].status.Failed?;      // so the pipeline never reports ERROR from here
    engine.world := engine.world.(status := Rollback);
    engine.Release(wf);
    return -1;
  }

  /** An update that was started, committed or not, leaves memory and buffers as they were.
      It leaves the checkpoint table as it was exactly when its name was not in the table
      already or its checkpoint could not be taken. */
  lemma UpdateLeavesNoTrace(tx: Tx, digest: seq<Byte> -> nat, w: World)
    ensures var v := Applied(tx, digest, w);
            && v.status in {Complete, Rollback}
            && v.store.buffers == w.store.buffers && v.store.mem == w.store.mem
            && (v.store.checkpoints == w.store.checkpoints
                <==> tx.checkpoint !in w.store.checkpoints || !CanCheckpoint(tx, w))
  {
    var m := w.store.checkpoints;
    if tx.checkpoint !in m { assert Without(m, tx.checkpoint) == m; }
  }

  // ------------------------------------------------------ the engine's hypotheses

  lemma RewriteSame(mem: seq<Byte>, r: Region)
    requires r.addr + r.size <= |mem|
    ensures Written(mem, r.addr, mem[r.addr..r.addr + r.size]) == mem
  {}

  /** Each step of the pipeline meets the contract the engine's theorems ask for, as long as
      the checkpoint's name is new. */
  lemma StepsReversible(tx: Tx, digest: seq<Byte> -> nat, w: World, k: nat)
    requires k <= FirstFailure(Steps(tx, digest), w)
    requires StoreOk(w.store) && tx.checkpoint !in w.store.checkpoints
    ensures Reversible(Steps(tx, digest), w, k, SameState)
  {
    var s := Steps(tx, digest);
    FailsAt(tx, digest, w);
    forall j: nat, u | j < k && SameState(u, After(s, w, j + 1))
      ensures var (v, rv) := s[j].undo.Call(u); rv == 0 ==> SameState(v, After(s, w, j))
    {
      WorldsOf(tx, digest, w, j + 1);
      if j > 0 { WorldsOf(tx, digest, w, j); }
      if j == 0 { CheckpointReversible(tx, w, u); } else if j == 4 { InstallReversible(tx, w, u); }
    }
  }

  lemma CheckpointReversible(tx: Tx, w: World, u: World)
    requires CanCheckpoint(tx, w) && tx.checkpoint !in w.store.checkpoints
    requires u.store.buffers == w.store.buffers && u.store.mem == w.store.mem && u.installed == w.installed
    requires u.store.checkpoints == Create(w.store, tx.path, tx.checkpoint).0.checkpoints
    ensures SameState(UndoCheckpoint(tx, u).0, w)
  {
    assert Without(u.store.checkpoints, tx.checkpoint) == w.store.checkpoints;
  }

  lemma InstallReversible(tx: Tx, w: World, u: World)
    requires CanCheckpoint(tx, w) && StoreOk(w.store)
    requires u.store.buffers == w.store.buffers && u.store.mem == w.store.mem && u.installed == w.installed
    requires u.store.checkpoints == Create(w.store, tx.path, tx.checkpoint).0.checkpoints
    ensures SameState(UndoInstall(tx, u).0, u)
  {
    RewriteSame(w.store.mem, w.store.buffers[tx.path]);
  }

  /** An update abandoned at any step boundary, up to the very end of the pipeline, recovers:
      every undo succeeds and the state is the one the update found. */
  lemma UpdateRecovers(tx: Tx, digest: seq<Byte> -> nat, w: World, i: nat)
    requires i <= FirstFailure(Steps(tx, digest), w)
    requires StoreOk(w.store) && tx.checkpoint !in w.store.checkpoints
    ensures var s := Steps(tx, digest);
            && !UndoFails(s, After(s, w, i), i, 0)
            && SameState(Unwound(s, After(s, w, i), i, 0), w)
  {
    var s := Steps(tx, digest);
    FailsAt(tx, digest, w);
    var u := After(s, w, i);
    if i > 0 {
      WorldsOf(tx, digest, w, i);
      CreateThenDrop(tx, w);
    }
    if i <= 4 { UnwoundOf(tx, digest, u, i); } else { UnwoundFromInstall(tx, digest, w); }
    StepsReversible(tx, digest, w, i);
    UnwindRestores(s, w, u, i, 0, SameState);
  }

  lemma UnwoundFromInstall(tx: Tx, digest: seq<Byte> -> nat, w: World)
    requires Passes(tx, digest, w) && StoreOk(w.store)
    ensures var s := Steps(tx, digest); !UndoFails(s, After(s, w, 5), 5, 0)
  {
    var s := Steps(tx, digest);
    var u := After(s, w, 5);
    WorldsOf(tx, digest, w, 5);
    var v := UndoInstall(tx, u).0;
    assert UndoInstall(tx, u).1 == 0 && tx.checkpoint in v.store.checkpoints && v.installed;
    assert Unwound(s, u, 5, 4) == v;
    assert Unwound(s, u, 5, 3) == v && Unwound(s, u, 5, 2) == v && Unwound(s, u, 5, 1) == v;
    assert UndoCode(s, u, 5, 4) == 0 && UndoCode(s, u, 5, 3) == 0 && UndoCode(s, u, 5, 2) == 0;
    assert UndoCode(s, u, 5, 1) == 0 && UndoCode(s, u, 5, 0) == 0;
  }

  lemma NothingToDrop(tx: Tx, s: Store, v: World)
    requires tx.checkpoint !in s.checkpoints && v.store == Dropped(tx, s) && v.installed
    ensures v.store.checkpoints == s.checkpoints && UndoCheckpoint(tx, v) == (v, -1)
  {
    assert Without(s.checkpoints, tx.checkpoint) == s.checkpoints;
  }

  /** Abandoned behind the removal of its checkpoint, the update is restored but recovery
      cannot tell: the second removal fails, and the slot is kept as FAILED. */
  lemma SecondRemovalFails(tx: Tx, digest: seq<Byte> -> nat, w: World)
    requires CanCheckpoint(tx, w) && !Passes(tx, digest, w) && tx.checkpoint !in w.store.checkpoints
    ensures var s, f := Steps(tx, digest), FirstFailure(Steps(tx, digest), w);
            var v := Unwound(s, After(s, w, f + 1), f, 0);
            SameState(v, w) && UndoFails(s, v, f, 0) && SameState(Unwound(s, v, f, 0), w)
  {
    var s, f := Steps(tx, digest), FirstFailure(Steps(tx, digest), w);
    FailsAt(tx, digest, w);
    RejectedRunRollsBack(tx, digest, w);
    var v := RunWorld(s, w);
    NothingToDrop(tx, w.store, v);
    UnwoundOf(tx, digest, v, f);
  }

  // ------------------------------------------------- recovery from every record

  /** Recovery from record e succeeds and brings back the state the update found. */
  predicate Recovers(s: seq<Step<World>>, e: Entry<World>, w: World)
    requires e.ev.done <= |s|
  {
    UndosSucceed(s, e) && SameState(RecoveredFrom(s, e), w)
  }

  /** Behind the STEP_OK of step i: the checkpoint step has left its checkpoint, which nothing
      takes away; the later steps have left nothing. */
  lemma UpdateBehindStepOk(id: nat, tx: Tx, digest: seq<Byte> -> nat, w: World, i: nat)
    requires i < FirstFailure(Steps(tx, digest), w)
    requires StoreOk(w.store) && tx.checkpoint !in w.store.checkpoints
    ensures Recovers(Steps(tx, digest), Outcome(id, Steps(tx, digest), w, i), w) <==> i != 0
  {
    FailsAt(tx, digest, w);
    if i == 0 { BehindCheckpoint(id, tx, digest, w); } else { BehindLaterStep(id, tx, digest, w, i); }
  }

  lemma BehindCheckpoint(id: nat, tx: Tx, digest: seq<Byte> -> nat, w: World)
    requires CanCheckpoint(tx, w) && tx.checkpoint !in w.store.checkpoints
    ensures !Recovers(Steps(tx, digest), Outcome(id, Steps(tx, digest), w, 0), w)
  {
    WorldsOf(tx, digest, w, 1);
    CreateThenDrop(tx, w);
    UnwoundOf(tx, digest, After(Steps(tx, digest), w, 1), 0);
  }

  lemma BehindLaterStep(id: nat, tx: Tx, digest: seq<Byte> -> nat, w: World, i: nat)
    requires CanCheckpoint(tx, w) && tx.checkpoint !in w.store.checkpoints && 0 < i <= 4
    ensures Recovers(Steps(tx, digest), Outcome(id, Steps(tx, digest), w, i), w)
  {
    WorldsOf(tx, digest, w, i + 1);
    CreateThenDrop(tx, w);
    UnwoundOf(tx, digest, After(Steps(tx, digest), w, i + 1), i);
    assert Without(w.store.checkpoints, tx.checkpoint) == w.store.checkpoints;
  }

  /** At the begin record and at every intent. */
  lemma UpdateAtBoundary(id: nat, tx: Tx, digest: seq<Byte> -> nat, w: World, i: nat)
    requires i < |Steps(tx, digest)| && i <= FirstFailure(Steps(tx, digest), w)
    requires StoreOk(w.store) && tx.checkpoint !in w.store.checkpoints
    ensures Recovers(Steps(tx, digest), Intent(id, Steps(tx, digest), w, i), w)
  {
    UpdateRecovers(tx, digest, w, i);
  }

  /** Behind STEP_FAIL: nothing has been undone yet. */
  lemma UpdateBehindStepFail(tx: Tx, digest: seq<Byte> -> nat, w: World)
    requires !Passes(tx, digest, w) && tx.checkpoint !in w.store.checkpoints
    ensures var s, f := Steps(tx, digest), FirstFailure(Steps(tx, digest), w);
            && f < |s| && !UndoFails(s, After(s, w, f + 1), f, 0)
            && SameState(Unwound(s, After(s, w, f + 1), f, 0), w)
  {
    FailsAt(tx, digest, w);
    RejectedRunRollsBack(tx, digest, w);
    assert RunWorld(Steps(tx, digest), w).installed == w.installed;
    if CanCheckpoint(tx, w) { assert Without(w.store.checkpoints, tx.checkpoint) == w.store.checkpoints; }
  }

  /** The only undo record of a rejected update is the removal of its checkpoint. */
  lemma UpdateUndoTrace(id: nat, tx: Tx, digest: seq<Byte> -> nat, w: World)
    requires !Passes(tx, digest, w)
    ensures var s, f := Steps(tx, digest), FirstFailure(Steps(tx, digest), w);
            var u := After(s, w, f + 1);
            && f <= 4
            && UndoTrace(id, s, u, f, 0)
               == if f == 0 then []
                  else [Entry(id, Event(0, UndoOk, RollingBack, f, 0), Unwound(s, u, f, 0))]
  {
    var s, f := Steps(tx, digest), FirstFailure(Steps(tx, digest), w);
    var u := After(s, w, f + 1);
    FailsAt(tx, digest, w);
    RejectedRunRollsBack(tx, digest, w);
    if f > 0 {
      NoIdleRecords(id, tx, digest, u, f, 1);
      assert UndoCode(s, u, f, 0) == 0;
    }
  }

  lemma {:induction false} NoIdleRecords(id: nat, tx: Tx, digest: seq<Byte> -> nat, u: World, f: nat, j: nat)
    requires 1 <= j <= f <= 4
    ensures UndoTrace(id, Steps(tx, digest), u, f, j) == []
    decreases f - j
  {
    if j < f {
      NoIdleRecords(id, tx, digest, u, f, j + 1);
      assert Steps(tx, digest)[j].undo.Null?;
    }
  }

  /** The two records behind which an update is not recovered. */
  predicate Stranded(e: Entry<World>) {
    (e.ev.kind.StepOk? && e.ev.index == 0) || e.ev.kind.UndoOk?
  }

  lemma UpdateInForwardPart(id: nat, tx: Tx, digest: seq<Byte> -> nat, w: World, p: nat)
    requires StoreOk(w.store) && tx.checkpoint !in w.store.checkpoints
    requires p < 2 * FirstFailure(Steps(tx, digest), w) + 1
    ensures var s, e := Steps(tx, digest), ForwardEntry(id, Steps(tx, digest), w, p);
            e.ev.done <= |s| && (Recovers(s, e, w) <==> !Stranded(e))
  {
    if p > 0 {
      if p % 2 == 1 {
        UpdateAtBoundary(id, tx, digest, w, p / 2);
      } else {
        UpdateBehindStepOk(id, tx, digest, w, p / 2 - 1);
      }
    }
  }

  /** An update abandoned behind any record that is not terminal is recovered, cleanly and to
      the state it found, exactly when that record is neither the STEP_OK of the checkpoint
      step nor an UNDO_OK. */
  lemma UpdateRecoversExactly(id: nat, tx: Tx, digest: seq<Byte> -> nat, w: World, p: nat)
    requires StoreOk(w.store) && tx.checkpoint !in w.store.checkpoints
    requires p < |RunTrace(id, Steps(tx, digest), w)|
    requires RunTrace(id, Steps(tx, digest), w)[p].ev.status in {Running, RollingBack}
    ensures var s, e := Steps(tx, digest), RunTrace(id, Steps(tx, digest), w)[p];
            e.ev.done <= |s| && (Recovers(s, e, w) <==> !Stranded(e))
  {
    var s := Steps(tx, digest);
    var f := FirstFailure(s, w);
    if p < 2 * f + 1 {
      ForwardRecord(id, s, w, p);
      UpdateInForwardPart(id, tx, digest, w, p);
    } else if f < |s| {
      UpdateBehindFailure(id, tx, digest, w, p);
    }
  }

  lemma RejectedIff(tx: Tx, digest: seq<Byte> -> nat, w: World)
    ensures FirstFailure(Steps(tx, digest), w) < |Steps(tx, digest)| <==> !Passes(tx, digest, w)
  {
    FailsAt(tx, digest, w);
  }

  lemma FailEntryRecovers(id: nat, tx: Tx, digest: seq<Byte> -> nat, w: World)
    requires !Passes(tx, digest, w) && tx.checkpoint !in w.store.checkpoints
    ensures var s, f := Steps(tx, digest), FirstFailure(Steps(tx, digest), w);
            f < |s| && Recovers(s, FailEntry(id, s, w, f), w)
  {
    UpdateBehindStepFail(tx, digest, w);
  }

  lemma UndoEntryStranded(id: nat, tx: Tx, digest: seq<Byte> -> nat, w: World)
    requires !Passes(tx, digest, w) && CanCheckpoint(tx, w) && tx.checkpoint !in w.store.checkpoints
    ensures var s, f := Steps(tx, digest), FirstFailure(Steps(tx, digest), w);
            f < |s| && !Recovers(s, Entry(id, Event(0, UndoOk, RollingBack, f, 0), Unwound(s, After(s, w, f + 1), f, 0)), w)
  {
    RejectedIff(tx, digest, w);
    SecondRemovalFails(tx, digest, w);
  }

  /** The records of a rejected update from the intent of the failing step on. */
  lemma RejectedRecord(id: nat, tx: Tx, digest: seq<Byte> -> nat, w: World, p: nat)
    requires !Passes(tx, digest, w)
    requires 2 * FirstFailure(Steps(tx, digest), w) + 1 <= p < |RunTrace(id, Steps(tx, digest), w)|
    ensures var s, f := Steps(tx, digest), FirstFailure(Steps(tx, digest), w);
            && f < |s|
            && var u, e := After(s, w, f + 1), RunTrace(id, s, w)[p];
               if p == 2 * f + 1 then e == Intent(id, s, w, f)
               else if p == 2 * f + 2 then e == FailEntry(id, s, w, f)
               else if p == 2 * f + 3 && f > 0 then e == Entry(id, Event(0, UndoOk, RollingBack, f, 0), Unwound(s, u, f, 0))
               else e == UnwindEnd(id, s, u, f)
  {
    RejectedIff(tx, digest, w);
    UpdateUndoTrace(id, tx, digest, w);
    FailureRecord(id, Steps(tx, digest), w, p);
  }

  lemma UpdateBehindFailure(id: nat, tx: Tx, digest: seq<Byte> -> nat, w: World, p: nat)
    requires StoreOk(w.store) && tx.checkpoint !in w.store.checkpoints
    requires var f := FirstFailure(Steps(tx, digest), w);
             f < |Steps(tx, digest)| && 2 * f + 1 <= p < |RunTrace(id, Steps(tx, digest), w)|
    requires RunTrace(id, Steps(tx, digest), w)[p].ev.status in {Running, RollingBack}
    ensures var s, e := Steps(tx, digest), RunTrace(id, Steps(tx, digest), w)[p];
            e.ev.done <= |s| && (Recovers(s, e, w) <==> !Stranded(e))
  {
    var s := Steps(tx, digest);
    var f := FirstFailure(s, w);
    RejectedIff(tx, digest, w);
    RejectedRecord(id, tx, digest, w, p);
    if p == 2 * f + 1 {
      UpdateAtBoundary(id, tx, digest, w, f);
    } else if p == 2 * f + 2 {
      FailEntryRecovers(id, tx, digest, w);
    } else if p == 2 * f + 3 && f > 0 {
      FailsAt(tx, digest, w);
      UndoEntryStranded(id, tx, digest, w);
    }
  }

  // ------------------------------------------------------- names come from old ids

  /** Every checkpoint was named by some update, from an id already handed out. */
  ghost predicate Named(s: Store) {
    forall k :: k in s.checkpoints ==> exists p: CString, i: nat :: i < s.nextId && k == CheckpointName(p, i)
  }

  /** What may happen to the world while updates start, run, abort and recover in any
      interleaving: an id is handed out, or one callback of some started update is called. */
  datatype Move = TakeAnId | CallRun(tx: Tx, id: nat, i: nat) | CallUndo(tx: Tx, id: nat, i: nat)

  predicate Started(w: World, tx: Tx, id: nat) {
    id < w.store.nextId && tx.checkpoint == CheckpointName(tx.path, id)
  }

  predicate MayMove(w: World, m: Move) {
    match m
    case TakeAnId => true
    case CallRun(tx, id, i) => Started(w, tx, id) && i < 5
    case CallUndo(tx, id, i) => Started(w, tx, id) && i < 5
  }

  function Moved(w: World, m: Move, digest: seq<Byte> -> nat): World
    requires MayMove(w, m)
  {
    match m
    case TakeAnId => NextId(w).0
    case CallRun(tx, id, i) => Steps(tx, digest)[i].run.Call(w).0
    case CallUndo(tx, id, i) => Steps(tx, digest)[i].undo.Call(w).0
  }

  /** A store with no new name but this one, and no id taken back. */
  lemma NamedStays(s: Store, t: Store, p: CString, id: nat)
    requires Named(s) && s.nextId <= t.nextId && id < t.nextId
    requires forall k :: k in t.checkpoints ==> k in s.checkpoints || k == CheckpointName(p, id)
    ensures Named(t)
  {
    forall k | k in t.checkpoints
      ensures exists q: CString, i: nat :: i < t.nextId && k == CheckpointName(q, i)
    {
      if k in s.checkpoints {
        var q: CString, i: nat :| i < s.nextId && k == CheckpointName(q, i);
        assert i < t.nextId && k == CheckpointName(q, i);
      } else {
        assert id < t.nextId && k == CheckpointName(p, id);
      }
    }
  }

  lemma MoveKeepsNamed(w: World, m: Move, digest: seq<Byte> -> nat)
    requires Named(w.store) && MayMove(w, m)
    ensures Named(Moved(w, m, digest).store)
  {
    var t := Moved(w, m, digest).store;
    match m
    case TakeAnId => NamedStays(w.store, t, "", 0);
    case CallRun(tx, id, i) => NamedStays(w.store, t, tx.path, id);
    case CallUndo(tx, id, i) => NamedStays(w.store, t, tx.path, id);
  }

  ghost predicate IsHistory(worlds: seq<World>, moves: seq<Move>, digest: seq<Byte> -> nat) {
    && |worlds| == |moves| + 1
    && forall i :: 0 <= i < |moves| ==>
         MayMove(worlds[i], moves[i]) && worlds[i + 1] == Moved(worlds[i], moves[i], digest)
  }

  /** Wherever a history of updates has led, a name built from the next id is not in the
      checkpoint table, as long as ids stay below 2^32. */
  lemma {:induction false} NextNameAbsent(
      worlds: seq<World>, moves: seq<Move>, digest: seq<Byte> -> nat, i: nat, path: CString)
    requires IsHistory(worlds, moves, digest) && i <= |moves|
    requires worlds[0].store.checkpoints == map[] || Named(worlds[0].store)
    ensures Named(worlds[i].store)
    ensures var id := worlds[i].store.nextId;
            id < 0x1_0000_0000 ==> CheckpointName(path, id) !in worlds[i].store.checkpoints
  {
    if i > 0 {
      NextNameAbsent(worlds, moves, digest, i - 1, path);
      MoveKeepsNamed(worlds[i - 1], moves[i - 1], digest);
    }
    var s := worlds[i].store;
    if s.nextId < 0x1_0000_0000 { FreshNameAbsent(s.checkpoints, path, s.nextId); }
  }
}
